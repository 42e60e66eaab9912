// Which texts the strict parser reads as lists, objects and literals, told by the texts of their parts.
module JsonLists {
  import opened Text
  import opened Json
  import opened StrictJson
  import opened StrictJsonProofs
  import opened StrictJsonTheorems
  import opened JsonSpelling

  // ----- literals -----

  // The text between blanks.
  ghost predicate Amid(s: Text, t: Text) {
    exists lead: Text, trail: Text :: BlankText(lead) && BlankText(trail) && s == lead + t + trail
  }

  ghost function LiteralOf(v: Json): string
    requires v.Null? || v.Bool?
  {
    if v.Null? then "null" else if v.flag then "true" else "false"
  }

  lemma LiteralsAreSpelled(s: Text, v: Json)
    requires v.Null? || v.Bool?
    ensures Parse(s) == Success(v) <==> exists t :: Letters(t, LiteralOf(v)) && Amid(s, t)
  {
    ParseIsCorrect(s, v);
    var c := if v.Null? then NullLiteral else BoolLiteral(v.flag);
    LiteralText(c, v);
    hide Parse, Letters, Render;
    if exists d :: JsonText(s, d) && Meaning(d) == v {
      var d :| JsonText(s, d) && Meaning(d) == v;
      assert d == c;
      var lead: Text, trail: Text :| Blank(lead) && Blank(trail) && s == lead + Render(c) + trail;
      BlanksAreFour(lead);
      BlanksAreFour(trail);
      assert Amid(s, Render(c));
    }
    if t :| Letters(t, LiteralOf(v)) && Amid(s, t) {
      OneLiteral(t, Render(c), LiteralOf(v));
      var lead: Text, trail: Text :| BlankText(lead) && BlankText(trail) && s == lead + t + trail;
      BlanksAreFour(lead);
      BlanksAreFour(trail);
      assert JsonText(s, c) && Meaning(c) == v;
    }
  }

  lemma LiteralText(c: Syntax, v: Json)
    requires (c == NullLiteral && v == Null) || (c.BoolLiteral? && v == Bool(c.flag))
    ensures Letters(Render(c), LiteralOf(v))
  {
    assert "null"[0] == 'n' && "true"[0] == 't' && "false"[0] == 'f';
  }

  lemma OneLiteral(t: Text, u: Text, s: string)
    requires Letters(t, s) && Letters(u, s)
    ensures t == u
  {}

  // ----- lists -----

  ghost predicate ReadsAs(s: Text, v: Json) {
    Parse(s) == Success(v)
  }

  ghost predicate ReadsAll(ss: seq<Text>, vs: seq<Json>) {
    |ss| == |vs| && forall i :: 0 <= i < |vs| ==> ReadsAs(ss[i], vs[i])
  }

  // What stands between the brackets: blanks, or the texts of the items with commas between them.
  ghost predicate ListText(inner: Text, vs: seq<Json>) {
    if vs == [] then BlankText(inner) else exists ss :: ReadsAll(ss, vs) && inner == JoinWith(ss, [',' as int])
  }

  lemma {:induction false} ItemsAreWithin(items: seq<Item>)
    requires ValidItems(items) && items != []
    requires ItemsNesting(ItemValues(items)) <= MAX_DEPTH + 1 && ItemsCount(ItemValues(items)) <= MAX_NODES
    requires RegularItems(ItemValues(items))
    ensures Within(Meaning(items[0].value))
    ensures items[1..] != [] ==>
      && ItemsNesting(ItemValues(items[1..])) <= MAX_DEPTH + 1 && ItemsCount(ItemValues(items[1..])) <= MAX_NODES
      && RegularItems(ItemValues(items[1..]))
  {
    var vs := ItemValues(items);
    assert vs[0] == Meaning(items[0].value) && vs[1..] == ItemValues(items[1..]);
  }

  lemma ReadsTree(lead: Text, c: Syntax, trail: Text)
    requires Valid(c) && Blank(lead) && Blank(trail) && Within(Meaning(c))
    ensures ReadsAs(lead + Render(c) + trail, Meaning(c))
  {
    hide Parse, Within;
    ParseOfText(lead, c, trail);
  }

  // The items of a tree, as texts.
  lemma {:induction false} ItemTexts(lead: Text, items: seq<Item>) returns (ss: seq<Text>)
    requires Blank(lead) && ValidItems(items) && items != []
    requires ItemsNesting(ItemValues(items)) <= MAX_DEPTH + 1 && ItemsCount(ItemValues(items)) <= MAX_NODES
    requires RegularItems(ItemValues(items))
    ensures ReadsAll(ss, ItemValues(items)) && lead + RenderItems(items) == JoinWith(ss, [COMMA]) + [RBRACKET]
    decreases |items|
  {
    hide ReadsAs, ItemsNesting, ItemsCount, RegularItems, Render, JoinWith;
    ItemsAreWithin(items);
    var first := lead + Render(items[0].value) + items[0].after;
    ReadsTree(lead, items[0].value, items[0].after);
    if |items| == 1 {
      ss := [first];
      OnePart(first, [COMMA]);
      assert items[1..] == [];
      assert ItemValues(items) == [Meaning(items[0].value)];
      assert lead + (Render(items[0].value) + items[0].after + [RBRACKET]) == first + [RBRACKET];
    } else {
      var more := ItemTexts(items[0].ahead, items[1..]);
      ss := [first] + more;
      assert ss[1..] == more;
      JoinFront(ss, [COMMA]);
      Chain(lead, Render(items[0].value), items[0].after, items[0].ahead, RenderItems(items[1..]),
            JoinWith(more, [COMMA]));
    }
  }

  lemma OnePart(t: Text, separator: Text)
    ensures JoinWith([t], separator) == t
  {}

  lemma Chain(lead: Text, v: Text, after: Text, ahead: Text, more: Text, joined: Text)
    requires ahead + more == joined + [RBRACKET]
    ensures lead + (v + after + ([COMMA] + ahead + more)) == (lead + v + after) + [COMMA] + joined + [RBRACKET]
  {
    assert [COMMA] + ahead + more == [COMMA] + (ahead + more);
  }

  // The texts of items, as a tree.
  lemma {:induction false} TextItems(ss: seq<Text>, vs: seq<Json>) returns (lead: Text, items: seq<Item>)
    requires ReadsAll(ss, vs) && ss != []
    ensures Blank(lead) && ValidItems(items) && items != [] && ItemValues(items) == vs
    ensures lead + RenderItems(items) == JoinWith(ss, [COMMA]) + [RBRACKET]
    decreases |ss|
  {
    hide ReadsAs, Render, JoinWith, Valid, Meaning;
    var c, after;
    lead, c, after := TreeOf(ss[0], vs[0]);
    if |ss| == 1 {
      items := [Item(c, after, [])];
      assert items[1..] == [];
      OnePart(ss[0], [COMMA]);
      assert ss == [ss[0]] && vs == [vs[0]];
      assert lead + (Render(c) + after + [RBRACKET]) == ss[0] + [RBRACKET];
    } else {
      var ahead, more := TextItems(ss[1..], vs[1..]);
      items := [Item(c, after, ahead)] + more;
      assert items[1..] == more;
      JoinFront(ss, [COMMA]);
      Chain(lead, Render(c), after, ahead, RenderItems(more), JoinWith(ss[1..], [COMMA]));
      assert vs == [vs[0]] + vs[1..];
    }
  }

  lemma TreeOf(s: Text, v: Json) returns (lead: Text, c: Syntax, trail: Text)
    requires ReadsAs(s, v)
    ensures Valid(c) && Meaning(c) == v && Blank(lead) && Blank(trail) && s == lead + Render(c) + trail
  {
    ParseIsCorrect(s, v);
    hide Parse;
    c :| JsonText(s, c) && Meaning(c) == v;
    lead, trail :| Blank(lead) && Blank(trail) && s == lead + Render(c) + trail;
  }

  // A text is read as a list exactly when it is brackets around texts that are read as the items, and within
  // the limits.
  lemma ListsAreSpelled(s: Text, vs: seq<Json>)
    ensures Parse(s) == Success(Arr(vs)) <==>
      Within(Arr(vs)) && exists inner :: ListText(inner, vs) && Amid(s, ['[' as int] + inner + [']' as int])
  {
    ParseIsCorrect(s, Arr(vs));
    hide Parse, ReadsAll, RegularItems, ItemsNesting, ItemsCount, JoinWith;
    if Within(Arr(vs)) && exists c :: JsonText(s, c) && Meaning(c) == Arr(vs) {
      var c :| JsonText(s, c) && Meaning(c) == Arr(vs);
      var inner := InnerOf(c, vs);
      assert Amid(s, Render(c)) by { AmidTree(s, c); }
    }
    if Within(Arr(vs)) && exists inner :: ListText(inner, vs) && Amid(s, ['[' as int] + inner + [']' as int]) {
      var inner :| ListText(inner, vs) && Amid(s, ['[' as int] + inner + [']' as int]);
      var c := ListTree(inner, vs);
      TreeAmid(s, c);
    }
  }

  lemma AmidTree(s: Text, c: Syntax)
    requires JsonText(s, c)
    ensures Amid(s, Render(c))
  {
    var lead: Text, trail: Text :| Blank(lead) && Blank(trail) && s == lead + Render(c) + trail;
    BlanksAreFour(lead);
    BlanksAreFour(trail);
  }

  lemma TreeAmid(s: Text, c: Syntax)
    requires Valid(c) && Amid(s, Render(c))
    ensures JsonText(s, c)
  {
    var lead: Text, trail: Text :| BlankText(lead) && BlankText(trail) && s == lead + Render(c) + trail;
    BlanksAreFour(lead);
    BlanksAreFour(trail);
  }

  lemma InnerOf(c: Syntax, vs: seq<Json>) returns (inner: Text)
    requires Valid(c) && Meaning(c) == Arr(vs) && Within(Arr(vs))
    ensures ListText(inner, vs) && Render(c) == ['[' as int] + inner + [']' as int]
  {
    hide ReadsAll, JoinWith;
    var pad, items := c.pad, c.items;
    if items == [] {
      inner := pad;
      BlanksAreFour(pad);
      assert Render(c) == [LBRACKET] + pad + [RBRACKET];
    } else {
      var ss := ItemTexts(pad, items);
      inner := JoinWith(ss, [COMMA]);
      assert [LBRACKET] + pad + RenderItems(items) == [LBRACKET] + (pad + RenderItems(items));
    }
  }

  lemma AsMany(ss: seq<Text>, vs: seq<Json>)
    requires ReadsAll(ss, vs)
    ensures |ss| == |vs|
  {}

  lemma ListTree(inner: Text, vs: seq<Json>) returns (c: Syntax)
    requires ListText(inner, vs)
    ensures Valid(c) && Meaning(c) == Arr(vs) && Render(c) == ['[' as int] + inner + [']' as int]
  {
    hide ReadsAll, JoinWith;
    if vs == [] {
      BlanksAreFour(inner);
      c := ArrayLiteral(inner, []);
    } else {
      var ss :| ReadsAll(ss, vs) && inner == JoinWith(ss, [',' as int]);
      AsMany(ss, vs);
      var lead, items := TextItems(ss, vs);
      c := ArrayLiteral(lead, items);
      assert [LBRACKET] + lead + RenderItems(items) == [LBRACKET] + (lead + RenderItems(items));
    }
  }

  // ----- objects -----

  // The text of a member: a text that is read as its key, a colon, and one that is read as its value.
  ghost predicate MemberText(t: Text, m: Field) {
    exists k: Text, v: Text :: ReadsAs(k, Str(m.key)) && ReadsAs(v, m.value) && t == k + [':' as int] + v
  }

  ghost predicate MemberTexts(ss: seq<Text>, ms: seq<Field>) {
    |ss| == |ms| && forall i :: 0 <= i < |ms| ==> MemberText(ss[i], ms[i])
  }

  ghost predicate ObjectText(inner: Text, ms: seq<Field>) {
    if ms == [] then BlankText(inner) else exists ss :: MemberTexts(ss, ms) && inner == JoinWith(ss, [',' as int])
  }

  lemma MembersAreWithin(members: seq<Member>, keys: set<Text>)
    requires ValidMembers(members) && members != []
    requires MembersNesting(MemberValues(members)) <= MAX_DEPTH + 1 && MembersCount(MemberValues(members)) <= MAX_NODES
    requires RegularMembers(MemberValues(members), keys)
    ensures Within(Meaning(members[0].value)) && Within(Str(PiecesValue(members[0].key)))
    ensures members[1..] != [] ==>
      && MembersNesting(MemberValues(members[1..])) <= MAX_DEPTH + 1
      && MembersCount(MemberValues(members[1..])) <= MAX_NODES
      && RegularMembers(MemberValues(members[1..]), keys + {PiecesValue(members[0].key)})
  {
    var vs := MemberValues(members);
    assert vs[0] == Field(PiecesValue(members[0].key), Meaning(members[0].value))
        && vs[1..] == MemberValues(members[1..]);
  }

  // A member of a tree, as a text.
  lemma TextOfMember(lead: Text, m: Member) returns (t: Text)
    requires Blank(lead) && ValidMembers([m]) && Within(Meaning(m.value)) && Within(Str(PiecesValue(m.key)))
    ensures MemberText(t, Field(PiecesValue(m.key), Meaning(m.value))) && t == lead + RenderMember(m)
  {
    hide ReadsAs, Within;
    var key := StringLiteral(m.key);
    ReadsTree(lead, key, m.afterKey);
    ReadsTree(m.beforeValue, m.value, m.after);
    var k, v := lead + Render(key) + m.afterKey, m.beforeValue + Render(m.value) + m.after;
    t := k + [COLON] + v;
    hide Render;
    OneMember(lead, StringText(m.key), m.afterKey, m.beforeValue, Render(m.value), m.after);
  }

  lemma {:induction false} TextsOfMembers(lead: Text, members: seq<Member>, keys: set<Text>) returns (ss: seq<Text>)
    requires Blank(lead) && ValidMembers(members) && members != []
    requires MembersNesting(MemberValues(members)) <= MAX_DEPTH + 1 && MembersCount(MemberValues(members)) <= MAX_NODES
    requires RegularMembers(MemberValues(members), keys)
    ensures MemberTexts(ss, MemberValues(members)) && lead + RenderMembers(members) == JoinWith(ss, [COMMA]) + [RBRACE]
    decreases |members|
  {
    MembersAreWithin(members, keys);
    var m := members[0];
    assert ValidMembers([m]) by { assert [m][1..] == []; }
    hide MemberText, Within, MembersNesting, MembersCount, RegularMembers, RenderMember, JoinWith;
    var first := TextOfMember(lead, m);
    if |members| == 1 {
      ss := [first];
      OnePart(first, [COMMA]);
      assert members[1..] == [];
      assert MemberValues(members) == [Field(PiecesValue(m.key), Meaning(m.value))];
      assert lead + (RenderMember(m) + [RBRACE]) == first + [RBRACE];
    } else {
      var more := TextsOfMembers(m.ahead, members[1..], keys + {PiecesValue(m.key)});
      ss := [first] + more;
      assert ss[1..] == more;
      JoinFront(ss, [COMMA]);
      Link(lead, RenderMember(m), m.ahead, RenderMembers(members[1..]), JoinWith(more, [COMMA]));
    }
  }

  lemma Link(lead: Text, member: Text, ahead: Text, more: Text, joined: Text)
    requires ahead + more == joined + [RBRACE]
    ensures lead + (member + ([COMMA] + ahead + more)) == (lead + member) + [COMMA] + joined + [RBRACE]
  {
    assert [COMMA] + ahead + more == [COMMA] + (ahead + more);
  }

  // The text of a member, as a tree.
  lemma MemberOfText(t: Text, f: Field, ahead: Text) returns (lead: Text, m: Member)
    requires MemberText(t, f) && Blank(ahead)
    ensures Blank(lead) && ValidMembers([m]) && m.ahead == ahead && t == lead + RenderMember(m)
    ensures PiecesValue(m.key) == f.key && Meaning(m.value) == f.value
  {
    hide ReadsAs;
    var k: Text, v: Text :| ReadsAs(k, Str(f.key)) && ReadsAs(v, f.value) && t == k + [':' as int] + v;
    var key, afterKey, beforeValue, c, after;
    lead, key, afterKey := TreeOf(k, Str(f.key));
    beforeValue, c, after := TreeOf(v, f.value);
    m := Member(key.pieces, afterKey, beforeValue, c, after, ahead);
    assert [m][1..] == [];
    assert Render(key) == StringText(key.pieces);
    hide Render, Meaning, Valid, PiecesValue;
    OneMember(lead, StringText(key.pieces), afterKey, beforeValue, Render(c), after);
  }

  lemma OneMember(lead: Text, key: Text, afterKey: Text, beforeValue: Text, v: Text, after: Text)
    ensures lead + (key + afterKey + [COLON] + beforeValue + v + after)
      == lead + key + afterKey + [COLON] + (beforeValue + v + after)
  {}

  lemma {:induction false} MembersOfTexts(ss: seq<Text>, ms: seq<Field>) returns (lead: Text, members: seq<Member>)
    requires MemberTexts(ss, ms) && ss != []
    ensures Blank(lead) && ValidMembers(members) && members != [] && MemberValues(members) == ms
    ensures lead + RenderMembers(members) == JoinWith(ss, [COMMA]) + [RBRACE]
    decreases |ss|
  {
    hide MemberText, RenderMember, JoinWith, Valid, Meaning;
    if |ss| == 1 {
      var m;
      lead, m := MemberOfText(ss[0], ms[0], []);
      members := [m];
      assert members[1..] == [];
      OnePart(ss[0], [COMMA]);
      assert ss == [ss[0]] && ms == [ms[0]];
      assert lead + (RenderMember(m) + [RBRACE]) == ss[0] + [RBRACE];
    } else {
      var ahead, more := MembersOfTexts(ss[1..], ms[1..]);
      var m;
      lead, m := MemberOfText(ss[0], ms[0], ahead);
      members := [m] + more;
      assert members[1..] == more;
      JoinFront(ss, [COMMA]);
      Link(lead, RenderMember(m), ahead, RenderMembers(more), JoinWith(ss[1..], [COMMA]));
      assert ms == [ms[0]] + ms[1..];
    }
  }

  // A text is read as an object exactly when it is braces around the texts of the members, and within the limits.
  lemma ObjectsAreSpelled(s: Text, ms: seq<Field>)
    ensures Parse(s) == Success(Obj(ms)) <==>
      Within(Obj(ms)) && exists inner :: ObjectText(inner, ms) && Amid(s, ['{' as int] + inner + ['}' as int])
  {
    ParseIsCorrect(s, Obj(ms));
    hide Parse, MemberTexts, RegularMembers, MembersNesting, MembersCount, JoinWith;
    if Within(Obj(ms)) && exists c :: JsonText(s, c) && Meaning(c) == Obj(ms) {
      var c :| JsonText(s, c) && Meaning(c) == Obj(ms);
      var inner := InnerOfObject(c, ms);
      AmidTree(s, c);
    }
    if Within(Obj(ms)) && exists inner :: ObjectText(inner, ms) && Amid(s, ['{' as int] + inner + ['}' as int]) {
      var inner :| ObjectText(inner, ms) && Amid(s, ['{' as int] + inner + ['}' as int]);
      var c := ObjectTree(inner, ms);
      TreeAmid(s, c);
    }
  }

  lemma InnerOfObject(c: Syntax, ms: seq<Field>) returns (inner: Text)
    requires Valid(c) && Meaning(c) == Obj(ms) && Within(Obj(ms))
    ensures ObjectText(inner, ms) && Render(c) == ['{' as int] + inner + ['}' as int]
  {
    hide MemberTexts, JoinWith;
    var pad, members := c.pad, c.members;
    if members == [] {
      inner := pad;
      BlanksAreFour(pad);
      assert Render(c) == [LBRACE] + pad + [RBRACE];
    } else {
      var ss := TextsOfMembers(pad, members, {});
      inner := JoinWith(ss, [COMMA]);
      assert [LBRACE] + pad + RenderMembers(members) == [LBRACE] + (pad + RenderMembers(members));
    }
  }

  lemma AsManyMembers(ss: seq<Text>, ms: seq<Field>)
    requires MemberTexts(ss, ms)
    ensures |ss| == |ms|
  {}

  lemma ObjectTree(inner: Text, ms: seq<Field>) returns (c: Syntax)
    requires ObjectText(inner, ms)
    ensures Valid(c) && Meaning(c) == Obj(ms) && Render(c) == ['{' as int] + inner + ['}' as int]
  {
    hide MemberTexts, JoinWith;
    if ms == [] {
      BlanksAreFour(inner);
      c := ObjectLiteral(inner, []);
    } else {
      var ss :| MemberTexts(ss, ms) && inner == JoinWith(ss, [',' as int]);
      AsManyMembers(ss, ms);
      var lead, members := MembersOfTexts(ss, ms);
      c := ObjectLiteral(lead, members);
      assert [LBRACE] + lead + RenderMembers(members) == [LBRACE] + (lead + RenderMembers(members));
    }
  }

  // ----- the limits -----

  // n pairs of brackets, one inside the other.
  ghost function Deep(n: nat): Json
    requires n >= 1
  {
    if n == 1 then Arr([]) else Arr([Deep(n - 1)])
  }

  ghost function Brackets(n: nat, u: CodeUnit): Text {
    seq(n, (i: nat) => u)
  }

  lemma {:induction false} DeepFacts(n: nat)
    requires n >= 1
    ensures Nesting(Deep(n)) == n - 1 && Count(Deep(n)) == n && Regular(Deep(n)) && ValidNumbers(Deep(n))
    ensures Print(Deep(n)) == Brackets(n, '[' as int) + Brackets(n, ']' as int)
  {
    if n == 1 {
      assert Print(Deep(1)) == [LBRACKET] + [] + [RBRACKET];
    } else {
      DeepFacts(n - 1);
      var inner := [Deep(n - 1)];
      assert inner[1..] == [];
      assert ItemsNesting(inner) == 1 + Nesting(Deep(n - 1)) && ItemsCount(inner) == Count(Deep(n - 1));
      assert RegularItems(inner) && ItemsValidNumbers(inner);
      assert PrintItems(inner) == Print(Deep(n - 1));
      assert Brackets(n, LBRACKET) == [LBRACKET] + Brackets(n - 1, LBRACKET);
      assert Brackets(n, RBRACKET) == Brackets(n - 1, RBRACKET) + [RBRACKET];
    }
  }

  // Brackets inside brackets are read up to 33 deep: a value may stand inside 32 others.
  lemma DepthIsLimited(n: nat)
    requires n >= 1
    ensures Parse(Brackets(n, '[' as int) + Brackets(n, ']' as int)).Success? <==> n <= 33
  {
    DeepFacts(n);
    ParsePrinted(Deep(n));
  }

  // A list of n times the same literal.
  ghost function Trues(n: nat): seq<Json> {
    seq(n, (i: nat) => Bool(true))
  }

  lemma {:induction false} TruesFacts(n: nat)
    ensures ItemsNesting(Trues(n)) <= 1 && ItemsCount(Trues(n)) == n && RegularItems(Trues(n))
    ensures ItemsValidNumbers(Trues(n))
  {
    if n > 0 {
      TruesFacts(n - 1);
      assert Trues(n)[1..] == Trues(n - 1);
    }
  }

  // A list is read up to 4096 values, itself included.
  lemma SizeIsLimited(n: nat)
    ensures Parse(Print(Arr(Trues(n)))).Success? <==> n + 1 <= 4096
  {
    TruesFacts(n);
    ParsePrinted(Arr(Trues(n)));
  }

  // No object is read in which two members have the same key.
  lemma KeysAreDistinct(s: Text, ms: seq<Field>, i: nat, j: nat)
    requires i < j < |ms| && ms[i].key == ms[j].key
    ensures Parse(s) != Success(Obj(ms))
  {
    ParseIsCorrect(s, Obj(ms));
    if RegularMembers(ms, {}) {
      RegularKeys(ms, {}, i, j);
    }
  }

  lemma {:induction false} RegularKeys(ms: seq<Field>, keys: set<Text>, i: nat, j: nat)
    requires i < j < |ms| && RegularMembers(ms, keys)
    ensures ms[i].key != ms[j].key
  {
    if i > 0 {
      RegularKeys(ms[1..], keys + {ms[0].key}, i - 1, j - 1);
    } else {
      KeyIsNew(ms[1..], keys + {ms[0].key}, j - 1);
    }
  }

  lemma {:induction false} KeyIsNew(ms: seq<Field>, keys: set<Text>, j: nat)
    requires j < |ms| && RegularMembers(ms, keys)
    ensures ms[j].key !in keys
  {
    if j > 0 {
      KeyIsNew(ms[1..], keys + {ms[0].key}, j - 1);
    }
  }
}
