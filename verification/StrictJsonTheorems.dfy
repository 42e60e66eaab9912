// Soundness of the strict parser, and the main results about it.
module StrictJsonTheorems {
  import opened Basics
  import opened Text
  import opened Json
  import opened StrictJson
  import opened StrictJsonProofs

  // ----- soundness: whatever is accepted is a valid text -----

  // c is a syntax tree for what was read from t.
  ghost predicate Explains(c: Syntax, t: Text, depth: nat, nodes: nat, r: Step<Json>) {
    && Valid(c) && r.Done?
    && t == Render(c) + r.rest && r.value == Meaning(c)
    && Check(c, depth, nodes) == Pass(r.nodes)
  }

  lemma DelimiterSplits(t: Text, close: CodeUnit) returns (after: Text, ahead: Text)
    requires !Delimiter(t, close).Neither?
    ensures Blank(after) && Blank(ahead)
    ensures match Delimiter(t, close)
      case Closed(rest) => t == after + [close] + rest
      case More(rest) => t == after + [COMMA] + ahead + rest
  {
    after := SkipSplits(t);
    ahead := [];
    assert Blank([]);
    var u := SkipSpace(t);
    hide SkipSpace, Blank;
    if Starts(u, close) {
      SpliceFirst(after, u);
    } else {
      ahead := SkipSplits(u[1..]);
      SpliceRest(after, u, ahead, SkipSpace(u[1..]));
    }
  }

  lemma SpliceFirst(after: Text, u: Text)
    requires u != []
    ensures after + u == after + [u[0]] + u[1..]
  {}

  lemma SpliceRest(after: Text, u: Text, ahead: Text, rest: Text)
    requires u != [] && u[1..] == ahead + rest
    ensures after + u == after + [u[0]] + ahead + rest
  {
    SpliceFirst(after, u);
  }

  lemma {:induction false} ValueSound(t: Text, depth: nat, nodes: nat) returns (c: Syntax)
    requires ParseValue(t, depth, nodes).Done?
    ensures Explains(c, t, depth, nodes, ParseValue(t, depth, nodes))
    decreases |t|, 1
  {
    assert t == [t[0]] + t[1..];
    if t[0] == LBRACE {
      c := ObjectSound(t[1..], depth + 1, nodes + 1);
      PrependBracket(t, c, ParseObject(t[1..], depth + 1, nodes + 1).rest);
    } else if t[0] == LBRACKET {
      c := ArraySound(t[1..], depth + 1, nodes + 1);
      PrependBracket(t, c, ParseArray(t[1..], depth + 1, nodes + 1).rest);
    } else if t[0] == QUOTE {
      c := StringSound(t, depth, nodes);
    } else if t[0] == MINUS || IsDigit(t[0]) {
      c := NumberSound(t, depth, nodes);
    } else {
      c := LiteralSound(t, depth, nodes);
    }
  }

  lemma StringSound(t: Text, depth: nat, nodes: nat) returns (c: Syntax)
    requires ParseValue(t, depth, nodes).Done? && t[0] == QUOTE
    ensures Explains(c, t, depth, nodes, ParseValue(t, depth, nodes))
  {
    var ps := PiecesRead(t[1..], []);
    c := StringLiteral(ps);
    var rest := ReadChars(t[1..], []).rest;
    assert [] + PiecesValue(ps) == PiecesValue(ps);
    JoinThree([QUOTE], PiecesText(ps), [QUOTE], rest);
  }

  lemma NumberSound(t: Text, depth: nat, nodes: nat) returns (c: Syntax)
    requires ParseValue(t, depth, nodes).Done? && (t[0] == MINUS || IsDigit(t[0]))
    ensures Explains(c, t, depth, nodes, ParseValue(t, depth, nodes))
  {
    ParseNumberAt(t, depth, nodes);
    TokenRead(t);
    c := NumberLiteral(ReadNumber(t).value);
  }

  lemma LiteralSound(t: Text, depth: nat, nodes: nat) returns (c: Syntax)
    requires ParseValue(t, depth, nodes).Done?
    requires t[0] != LBRACE && t[0] != LBRACKET && t[0] != QUOTE && t[0] != MINUS && !IsDigit(t[0])
    ensures Explains(c, t, depth, nodes, ParseValue(t, depth, nodes))
  {
    if t[0] == 0x74 {
      c := BoolLiteral(true);
    } else if t[0] == 0x66 {
      c := BoolLiteral(false);
    } else {
      c := NullLiteral;
    }
    assert t == Render(c) + t[|Render(c)|..];
  }

  // The text of a bracketed value without its first character.
  ghost function Inside(c: Syntax): Text
    requires c.ArrayLiteral? || c.ObjectLiteral?
  {
    match c
    case ArrayLiteral(pad, items) => pad + if items == [] then [RBRACKET] else RenderItems(items)
    case ObjectLiteral(pad, members) => pad + if members == [] then [RBRACE] else RenderMembers(members)
  }

  lemma PrependBracket(t: Text, c: Syntax, rest: Text)
    requires c.ArrayLiteral? || c.ObjectLiteral?
    requires Starts(t, if c.ArrayLiteral? then LBRACKET else LBRACE) && t[1..] == Inside(c) + rest
    ensures t == Render(c) + rest
  {
    assert t == [t[0]] + t[1..];
  }

  lemma {:induction false} ArraySound(t: Text, depth: nat, nodes: nat) returns (c: Syntax)
    requires ParseArray(t, depth, nodes).Done?
    ensures c.ArrayLiteral? && Blank(c.pad) && ValidItems(c.items)
    ensures var r := ParseArray(t, depth, nodes);
      t == Inside(c) + r.rest && r.value == Arr(ItemValues(c.items))
        && CheckItems(c.items, depth, nodes) == Pass(r.nodes)
    decreases |t|, 3
  {
    var pad := SkipSplits(t);
    var u := SkipSpace(t);
    if Starts(u, RBRACKET) {
      c := ArrayLiteral(pad, []);
      assert u == [RBRACKET] + u[1..];
    } else {
      var items := ItemsSound(u, depth, nodes, []);
      c := ArrayLiteral(pad, items);
      assert [] + ItemValues(items) == ItemValues(items);
      JoinOne(pad, RenderItems(items), ParseItems(u, depth, nodes, []).rest);
    }
  }

  ghost predicate ExplainsItems(items: seq<Item>, t: Text, depth: nat, nodes: nat, output: seq<Json>, r: Step<Json>) {
    && items != [] && ValidItems(items) && r.Done?
    && t == RenderItems(items) + r.rest && r.value == Arr(output + ItemValues(items))
    && CheckItems(items, depth, nodes) == Pass(r.nodes)
  }

  lemma {:induction false} ItemsSound(t: Text, depth: nat, nodes: nat, output: seq<Json>) returns (items: seq<Item>)
    requires ParseItems(t, depth, nodes, output).Done?
    ensures ExplainsItems(items, t, depth, nodes, output, ParseItems(t, depth, nodes, output))
    decreases |t|, 2
  {
    var v := ParseValue(t, depth, nodes);
    var c := ValueSound(t, depth, nodes);
    var d := Delimiter(v.rest, RBRACKET);
    var after, ahead := DelimiterSplits(v.rest, RBRACKET);
    if d.Closed? {
      items := [Item(c, after, [])];
      LastItem(c, after, depth, nodes, v.nodes, d.rest);
    } else {
      var more := ItemsSound(d.rest, depth, v.nodes, output + [v.value]);
      items := [Item(c, after, ahead)] + more;
      var r := ParseItems(d.rest, depth, v.nodes, output + [v.value]);
      MoreItems(Item(c, after, ahead), more, d.rest, depth, nodes, v.nodes, output, r);
    }
  }

  lemma LastItem(c: Syntax, after: Text, depth: nat, nodes: nat, n: nat, rest: Text)
    requires Valid(c) && Blank(after) && Check(c, depth, nodes) == Pass(n)
    ensures var items := [Item(c, after, [])];
      && ValidItems(items) && ItemValues(items) == [Meaning(c)]
      && Render(c) + (after + [RBRACKET] + rest) == RenderItems(items) + rest
      && CheckItems(items, depth, nodes) == Pass(n)
  {
    var items := [Item(c, after, [])];
    assert items[1..] == [];
    JoinTail(Render(c), after, [RBRACKET], rest);
  }

  lemma MoreItems(item: Item, more: seq<Item>, t: Text, depth: nat, nodes: nat, n: nat, output: seq<Json>,
                  r: Step<Json>)
    requires Valid(item.value) && Blank(item.after) && Blank(item.ahead) && Check(item.value, depth, nodes) == Pass(n)
    requires ExplainsItems(more, t, depth, n, output + [Meaning(item.value)], r)
    ensures ExplainsItems([item] + more, Render(item.value) + (item.after + [COMMA] + item.ahead + t),
                          depth, nodes, output, r)
  {
    var items := [item] + more;
    assert items[1..] == more;
    JoinContinued(Render(item.value), item.after, item.ahead, RenderItems(more), r.rest);
    assert output + [Meaning(item.value)] + ItemValues(more) == output + ItemValues(items);
  }

  lemma {:induction false} ObjectSound(t: Text, depth: nat, nodes: nat) returns (c: Syntax)
    requires ParseObject(t, depth, nodes).Done?
    ensures c.ObjectLiteral? && Blank(c.pad) && ValidMembers(c.members)
    ensures var r := ParseObject(t, depth, nodes);
      t == Inside(c) + r.rest && r.value == Obj(MemberValues(c.members))
        && CheckMembers(c.members, depth, nodes, {}) == Pass(r.nodes)
    decreases |t|, 3
  {
    var pad := SkipSplits(t);
    var u := SkipSpace(t);
    if Starts(u, RBRACE) {
      c := ObjectLiteral(pad, []);
      assert u == [RBRACE] + u[1..];
    } else {
      var members := MembersSound(u, depth, nodes, []);
      c := ObjectLiteral(pad, members);
      assert Keys([]) == {};
      assert [] + MemberValues(members) == MemberValues(members);
      JoinOne(pad, RenderMembers(members), ParseMembers(u, depth, nodes, []).rest);
    }
  }

  ghost predicate ExplainsMember(m: Member, t: Text, depth: nat, nodes: nat, output: seq<Field>, r: Step<Field>) {
    && ValidMembers([m]) && r.Done?
    && t == MemberHead(m) + r.rest && r.value == Field(PiecesValue(m.key), Meaning(m.value))
    && CheckMember(m, depth, nodes, Keys(output)) == Pass(r.nodes)
  }

  lemma {:induction false} MemberSound(t: Text, depth: nat, nodes: nat, output: seq<Field>) returns (m: Member)
    requires ParseMember(t, depth, nodes, output).Done?
    ensures ExplainsMember(m, t, depth, nodes, output, ParseMember(t, depth, nodes, output)) && m.after == []
      && m.ahead == []
    decreases |t|, 0
  {
    var key := ReadChars(t[1..], []);
    var ps := PiecesRead(t[1..], []);
    var afterKey := SkipSplits(key.rest);
    var colon := SkipSpace(key.rest);
    var beforeValue := SkipSplits(colon[1..]);
    var u := SkipSpace(colon[1..]);
    var v := ParseValue(u, depth, nodes);
    var c := ValueSound(u, depth, nodes);
    m := Member(ps, afterKey, beforeValue, c, [], []);
    assert [] + PiecesValue(ps) == PiecesValue(ps);
    assert t == [QUOTE] + t[1..] && colon == [COLON] + colon[1..];
    JoinHead(ps, afterKey, beforeValue, Render(c), v.rest);
  }

  lemma JoinHead(ps: seq<Piece>, afterKey: Text, beforeValue: Text, v: Text, rest: Text)
    ensures [QUOTE] + (PiecesText(ps) + [QUOTE] + (afterKey + ([COLON] + (beforeValue + (v + rest)))))
         == StringText(ps) + afterKey + [COLON] + beforeValue + v + rest
  {}

  ghost predicate ExplainsMembers(members: seq<Member>, t: Text, depth: nat, nodes: nat, output: seq<Field>,
                                  r: Step<Json>) {
    && members != [] && ValidMembers(members) && r.Done?
    && t == RenderMembers(members) + r.rest && r.value == Obj(output + MemberValues(members))
    && CheckMembers(members, depth, nodes, Keys(output)) == Pass(r.nodes)
  }

  lemma {:induction false} MembersSound(t: Text, depth: nat, nodes: nat, output: seq<Field>)
    returns (members: seq<Member>)
    requires ParseMembers(t, depth, nodes, output).Done?
    ensures ExplainsMembers(members, t, depth, nodes, output, ParseMembers(t, depth, nodes, output))
    decreases |t|, 2
  {
    var v := ParseMember(t, depth, nodes, output);
    var m := MemberSound(t, depth, nodes, output);
    var d := Delimiter(v.rest, RBRACE);
    var after, ahead := DelimiterSplits(v.rest, RBRACE);
    if d.Closed? {
      members := [m.(after := after)];
      LastMember(m, after, depth, nodes, output, v.nodes, d.rest);
    } else {
      var more := MembersSound(d.rest, depth, v.nodes, output + [v.value]);
      members := [m.(after := after, ahead := ahead)] + more;
      var r := ParseMembers(d.rest, depth, v.nodes, output + [v.value]);
      MoreMembers(m, after, ahead, more, d.rest, depth, nodes, v.nodes, output, r);
    }
  }

  lemma LastMember(m: Member, after: Text, depth: nat, nodes: nat, output: seq<Field>, n: nat, rest: Text)
    requires ValidMembers([m]) && Blank(after) && CheckMember(m, depth, nodes, Keys(output)) == Pass(n)
    ensures var members := [m.(after := after)];
      && ValidMembers(members) && MemberValues(members) == [Field(PiecesValue(m.key), Meaning(m.value))]
      && MemberHead(m) + (after + [RBRACE] + rest) == RenderMembers(members) + rest
      && CheckMembers(members, depth, nodes, Keys(output)) == Pass(n)
  {
    var members := [m.(after := after)];
    assert members[1..] == [];
    assert MemberHead(members[0]) == MemberHead(m);
    assert RenderMembers(members) == RenderMember(members[0]) + [RBRACE];
    JoinTail(MemberHead(m), after, [RBRACE], rest);
  }

  lemma MoreMembers(m: Member, after: Text, ahead: Text, more: seq<Member>, t: Text, depth: nat, nodes: nat, n: nat,
                    output: seq<Field>, r: Step<Json>)
    requires ValidMembers([m]) && Blank(after) && Blank(ahead) && CheckMember(m, depth, nodes, Keys(output)) == Pass(n)
    requires ExplainsMembers(more, t, depth, n, output + [Field(PiecesValue(m.key), Meaning(m.value))], r)
    ensures ExplainsMembers([m.(after := after, ahead := ahead)] + more,
                            MemberHead(m) + (after + [COMMA] + ahead + t), depth, nodes, output, r)
  {
    var field := Field(PiecesValue(m.key), Meaning(m.value));
    var members := [m.(after := after, ahead := ahead)] + more;
    assert members[1..] == more;
    KeysGrow(output, field);
    assert MemberHead(members[0]) == MemberHead(m);
    assert RenderMembers(members) == RenderMember(members[0]) + ([COMMA] + ahead + RenderMembers(more));
    JoinContinued(MemberHead(m), after, ahead, RenderMembers(more), r.rest);
    assert output + [field] + MemberValues(more) == output + MemberValues(members);
  }

  // ----- what the limits mean for a value -----

  // The number of brackets around the innermost value.
  ghost function Nesting(v: Json): nat
    decreases v, 1
  {
    match v
    case Arr(items) => ItemsNesting(items)
    case Obj(members) => MembersNesting(members)
    case _ => 0
  }

  // One more than the deepest nesting inside, or 0 when there is nothing inside.
  ghost function ItemsNesting(items: seq<Json>): nat
    decreases items, 0
  {
    if items == [] then 0 else MaxInt(1 + Nesting(items[0]), ItemsNesting(items[1..]))
  }

  ghost function MembersNesting(members: seq<Field>): nat
    decreases members, 0
  {
    if members == [] then 0 else
      var m := members[0];
      MaxInt(1 + Nesting(m.value), MembersNesting(members[1..]))
  }

  // The number of values, counting those inside.
  ghost function Count(v: Json): nat
    decreases v, 1
  {
    match v
    case Arr(items) => 1 + ItemsCount(items)
    case Obj(members) => 1 + MembersCount(members)
    case _ => 1
  }

  ghost function ItemsCount(items: seq<Json>): nat
    decreases items, 0
  {
    if items == [] then 0 else Count(items[0]) + ItemsCount(items[1..])
  }

  ghost function MembersCount(members: seq<Field>): nat
    decreases members, 0
  {
    if members == [] then 0 else
      var m := members[0];
      Count(m.value) + MembersCount(members[1..])
  }

  // Numbers are finite, strings and keys are paired, and no object repeats a key.
  ghost predicate Regular(v: Json)
    decreases v, 1
  {
    match v
    case Num(n) => ValidNumber(n) && Finite(n)
    case Str(t) => Paired(t)
    case Arr(items) => RegularItems(items)
    case Obj(members) => RegularMembers(members, {})
    case _ => true
  }

  ghost predicate RegularItems(items: seq<Json>)
    decreases items, 0
  {
    items != [] ==> Regular(items[0]) && RegularItems(items[1..])
  }

  ghost predicate RegularMembers(members: seq<Field>, keys: set<Text>)
    decreases members, 0
  {
    members != [] ==>
      var m := members[0];
      Paired(m.key) && m.key !in keys && Regular(m.value) && RegularMembers(members[1..], keys + {m.key})
  }

  ghost predicate Within(v: Json) {
    Nesting(v) <= MAX_DEPTH && Count(v) <= MAX_NODES && Regular(v)
  }

  // The verdict of a reading in progress is a verdict on the value.
  lemma {:induction false} CheckIsWithin(c: Syntax, depth: nat, nodes: nat)
    requires Valid(c)
    ensures var v := Meaning(c);
      var fits := depth + Nesting(v) <= MAX_DEPTH && nodes + Count(v) <= MAX_NODES && Regular(v);
      if fits then Check(c, depth, nodes) == Pass(nodes + Count(v)) else Check(c, depth, nodes).Reject?
    decreases c, 1
  {
    if depth <= MAX_DEPTH && nodes + 1 <= MAX_NODES {
      match c
      case ArrayLiteral(_, items) => CheckItemsIsWithin(items, depth + 1, nodes + 1);
      case ObjectLiteral(_, members) => CheckMembersIsWithin(members, depth + 1, nodes + 1, {});
      case _ =>
    }
  }

  lemma {:induction false} CheckItemsIsWithin(items: seq<Item>, depth: nat, nodes: nat)
    requires ValidItems(items) && depth > 0 && nodes <= MAX_NODES
    ensures var vs := ItemValues(items);
      var fits := (vs != [] ==> depth - 1 + ItemsNesting(vs) <= MAX_DEPTH) && nodes + ItemsCount(vs) <= MAX_NODES
          && RegularItems(vs);
      if fits then CheckItems(items, depth, nodes) == Pass(nodes + ItemsCount(vs))
      else CheckItems(items, depth, nodes).Reject?
    decreases items, 0
  {
    if items != [] {
      var v := Meaning(items[0].value);
      var vs := ItemValues(items);
      assert vs[0] == v && vs[1..] == ItemValues(items[1..]);
      CheckIsWithin(items[0].value, depth, nodes);
      if nodes + Count(v) <= MAX_NODES {
        CheckItemsIsWithin(items[1..], depth, nodes + Count(v));
      }
    }
  }

  lemma {:induction false} CheckMembersIsWithin(members: seq<Member>, depth: nat, nodes: nat, keys: set<Text>)
    requires ValidMembers(members) && depth > 0 && nodes <= MAX_NODES
    ensures var vs := MemberValues(members);
      var fits := (vs != [] ==> depth - 1 + MembersNesting(vs) <= MAX_DEPTH) && nodes + MembersCount(vs) <= MAX_NODES
          && RegularMembers(vs, keys);
      if fits then CheckMembers(members, depth, nodes, keys) == Pass(nodes + MembersCount(vs))
      else CheckMembers(members, depth, nodes, keys).Reject?
    decreases members, 0
  {
    if members != [] {
      var m := members[0];
      var v := Meaning(m.value);
      var key := PiecesValue(m.key);
      var vs := MemberValues(members);
      assert vs[0] == Field(key, v) && vs[1..] == MemberValues(members[1..]);
      CheckIsWithin(m.value, depth, nodes);
      if nodes + Count(v) <= MAX_NODES {
        CheckMembersIsWithin(members[1..], depth, nodes + Count(v), keys + {key});
      }
    }
  }

  // ----- main results -----

  // A JSON text of RFC 8259: a value between blanks.
  ghost predicate JsonText(s: Text, c: Syntax) {
    Valid(c) && exists lead: Text, trail: Text :: Blank(lead) && Blank(trail) && s == lead + Render(c) + trail
  }

  lemma ParseOfText(lead: Text, c: Syntax, trail: Text)
    requires Valid(c) && Blank(lead) && Blank(trail)
    ensures var r := Parse(lead + Render(c) + trail);
      if Within(Meaning(c)) then r == Success(Meaning(c)) else r.Failure?
  {
    var u := Render(c) + trail;
    assert lead + Render(c) + trail == lead + u;
    RenderStarts(c);
    SkipBlank(lead, u);
    ParseRendered(c, trail, 0, 0);
    CheckIsWithin(c, 0, 0);
    assert trail + [] == trail;
    SkipBlank(trail, []);
  }

  // The parser accepts a text with a value exactly when it is JSON for that value and the value is within the limits.
  lemma ParseIsCorrect(s: Text, v: Json)
    ensures Parse(s) == Success(v) <==> Within(v) && exists c :: JsonText(s, c) && Meaning(c) == v
  {
    if Parse(s) == Success(v) {
      var lead := SkipSplits(s);
      var u := SkipSpace(s);
      var c := ValueSound(u, 0, 0);
      var rest := ParseValue(u, 0, 0).rest;
      var trail := SkipSplits(rest);
      assert trail + [] == trail;
      CheckIsWithin(c, 0, 0);
      JoinOne(lead, Render(c), trail);
      assert s == lead + Render(c) + trail;
      assert JsonText(s, c);
    }
    if Within(v) && exists c :: JsonText(s, c) && Meaning(c) == v {
      var c :| JsonText(s, c) && Meaning(c) == v;
      var lead: Text, trail: Text :| Blank(lead) && Blank(trail) && s == lead + Render(c) + trail;
      ParseOfText(lead, c, trail);
    }
  }

  // Parsing undoes printing, exactly within the limits.
  lemma ParsePrinted(v: Json)
    requires ValidNumbers(v)
    ensures Within(v) ==> Parse(Print(v)) == Success(v)
    ensures !Within(v) ==> Parse(Print(v)).Failure?
  {
    TreeFacts(v);
    ParseOfText([], Tree(v), []);
    assert [] + Render(Tree(v)) + [] == Print(v);
  }

  // No other value prints to the same text.
  lemma PrintIsInjective(v: Json, w: Json)
    requires ValidNumbers(v) && ValidNumbers(w) && Within(v) && Within(w) && Print(v) == Print(w)
    ensures v == w
  {
    ParsePrinted(v);
    ParsePrinted(w);
  }
}
