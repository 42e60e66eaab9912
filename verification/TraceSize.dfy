// The serialized size of an execution trace, kept up to date while the trace is cut down (src/audit/trace.ts).
module TraceSize {
  import opened Basics
  import opened Text
  import opened Json

  const MAX_TRACE_BYTES := 512 * 1024

  // ----- the trace -----

  datatype Outcome = Succeeded | Failed | Aborted | TimedOut

  datatype Stage = Resolve | Prepare | Validate | Approve | Invoke | Guard

  datatype Risk = Read | Write | Execute | Network | Agent

  datatype Effect = NoEffect | Workspace | State | External

  datatype Operation = Operation(
    sequence: nat, ref: Text, provider: Option<Text>, action: Option<Text>, risk: Option<Risk>, effect: Option<Effect>,
    args: seq<Field>, outcome: Outcome, failureStage: Option<Stage>, error: Option<Text>, result: Option<Json>)

  datatype Counts = Counts(droppedValues: nat, truncatedValues: nat, redactedValues: nat, droppedOperations: nat)

  datatype Trace = Trace(outcome: Outcome, phases: seq<Text>, operations: seq<Operation>, counts: Counts,
                         error: Option<Text>)

  function OutcomeText(o: Outcome): Text {
    match o
    case Succeeded => Chars("succeeded")
    case Failed => Chars("failed")
    case Aborted => Chars("aborted")
    case TimedOut => Chars("timed_out")
  }

  function StageText(s: Stage): Text {
    match s
    case Resolve => Chars("resolve")
    case Prepare => Chars("prepare")
    case Validate => Chars("validate")
    case Approve => Chars("approve")
    case Invoke => Chars("invoke")
    case Guard => Chars("guard")
  }

  function RiskText(r: Risk): Text {
    match r
    case Read => Chars("read")
    case Write => Chars("write")
    case Execute => Chars("execute")
    case Network => Chars("network")
    case Agent => Chars("agent")
  }

  function EffectText(e: Effect): Text {
    match e
    case NoEffect => Chars("none")
    case Workspace => Chars("workspace")
    case State => Chars("state")
    case External => Chars("external")
  }

  function Natural(n: nat): Json {
    Num(Number(false, Digits(n), [], 0x65, [], []))
  }

  function Optional(key: string, value: Option<Json>): seq<Field> {
    if value.Some? then [Field(Chars(key), value.value)] else []
  }

  // An absent or empty text has no member.
  function NonEmpty(t: Option<Text>): Option<Json> {
    if t.Some? && t.value != [] then Some(Str(t.value)) else None
  }

  function OperationJson(op: Operation): Json {
    Obj([Field(Chars("type"), Str(Chars("call"))), Field(Chars("sequence"), Natural(op.sequence)),
         Field(Chars("ref"), Str(op.ref))]
      + Optional("provider", NonEmpty(op.provider)) + Optional("action", NonEmpty(op.action))
      + Optional("risk", if op.risk.Some? then Some(Str(RiskText(op.risk.value))) else None)
      + Optional("effect", if op.effect.Some? then Some(Str(EffectText(op.effect.value))) else None)
      + [Field(Chars("args"), Obj(op.args)), Field(Chars("outcome"), Str(OutcomeText(op.outcome)))]
      + Optional("failureStage", if op.failureStage.Some? then Some(Str(StageText(op.failureStage.value))) else None)
      + Optional("error", if op.error.Some? then Some(Str(op.error.value)) else None)
      + Optional("result", op.result))
  }

  function CountsJson(c: Counts): Json {
    Obj([Field(Chars("droppedValues"), Natural(c.droppedValues)),
         Field(Chars("truncatedValues"), Natural(c.truncatedValues)),
         Field(Chars("redactedValues"), Natural(c.redactedValues)),
         Field(Chars("droppedOperations"), Natural(c.droppedOperations))])
  }

  function PhaseItems(phases: seq<Text>): (s: seq<Json>)
    ensures |s| == |phases|
  {
    seq(|phases|, i requires 0 <= i < |phases| => Str(phases[i]))
  }

  function OperationItems(operations: seq<Operation>): (s: seq<Json>)
    ensures |s| == |operations|
  {
    seq(|operations|, i requires 0 <= i < |operations| => OperationJson(operations[i]))
  }

  function Members(t: Trace): (ms: seq<Field>)
    ensures |ms| == if t.error.Some? then 7 else 6
  {
    [Field(Chars("kind"), Str(Chars("pi-fabric.execution"))), Field(Chars("version"), Natural(1)),
     Field(Chars("outcome"), Str(OutcomeText(t.outcome))), Field(Chars("phases"), Arr(PhaseItems(t.phases))),
     Field(Chars("operations"), Arr(OperationItems(t.operations))), Field(Chars("counts"), CountsJson(t.counts))]
    + Optional("error", if t.error.Some? then Some(Str(t.error.value)) else None)
  }

  function SerializedBytes(v: Json): nat {
    Utf8Bytes(Print(v))
  }

  function TraceBytes(t: Trace): nat {
    SerializedBytes(Obj(Members(t)))
  }

  // ----- sizes of lists and objects -----

  function ListBytes(items: seq<Json>): nat {
    if items == [] then 0
    else ListBytes(items[..|items| - 1]) + SerializedBytes(items[|items| - 1]) + if |items| == 1 then 0 else 1
  }

  function MemberBytes(m: Field): nat {
    Utf8Bytes(Quoted(m.key)) + 1 + SerializedBytes(m.value)
  }

  function MembersBytes(ms: seq<Field>): nat {
    if ms == [] then 0 else if |ms| == 1 then MemberBytes(ms[0]) else MemberBytes(ms[0]) + 1 + MembersBytes(ms[1..])
  }

  // One plain character in the middle adds one byte.
  lemma Joined(a: Text, c: CodeUnit, b: Text)
    requires c < 0x80
    ensures Utf8Bytes(a + [c] + b) == Utf8Bytes(a) + 1 + Utf8Bytes(b)
  {
    Utf8Concat(a, [c]);
    Utf8Concat(a + [c], b);
    PlainUnit(c);
  }

  lemma PlainUnit(c: CodeUnit)
    requires c < 0x80
    ensures Utf8Bytes([c]) == 1
  {
    assert Utf8Bytes([c][1..]) == 0;
  }

  lemma Enclosed(a: CodeUnit, t: Text, b: CodeUnit)
    requires a < 0x80 && b < 0x80
    ensures Utf8Bytes([a] + t + [b]) == 2 + Utf8Bytes(t)
  {
    Joined(t, b, []);
    assert t + [b] + [] == t + [b];
    Joined([], a, t + [b]);
    assert [] + [a] + (t + [b]) == [a] + t + [b];
  }

  lemma {:induction false} ItemsGrow(items: seq<Json>, v: Json)
    ensures Utf8Bytes(PrintItems(items + [v]))
         == Utf8Bytes(PrintItems(items)) + SerializedBytes(v) + if items == [] then 0 else 1
  {
    if items == [] {
      assert items + [v] == [v];
    } else {
      var tail := items[1..];
      assert (items + [v])[1..] == tail + [v] && (items + [v])[0] == items[0];
      ItemsGrow(tail, v);
      assert PrintItems(items + [v]) == Print(items[0]) + [COMMA] + PrintItems(tail + [v]);
      Joined(Print(items[0]), COMMA, PrintItems(tail + [v]));
      if tail != [] {
        assert PrintItems(items) == Print(items[0]) + [COMMA] + PrintItems(tail);
        Joined(Print(items[0]), COMMA, PrintItems(tail));
      }
    }
  }

  lemma NoItems()
    ensures Utf8Bytes(PrintItems([])) == 0
  {}

  lemma {:induction false} ListIsPrinted(items: seq<Json>)
    ensures Utf8Bytes(PrintItems(items)) == ListBytes(items)
  {
    hide Print, PrintItems, Utf8Bytes, SerializedBytes;
    if items == [] {
      NoItems();
    } else {
      var init := items[..|items| - 1];
      ListIsPrinted(init);
      ItemsGrow(init, items[|items| - 1]);
      assert items == init + [items[|items| - 1]];
    }
  }

  lemma ArrayBytes(items: seq<Json>)
    ensures SerializedBytes(Arr(items)) == 2 + ListBytes(items)
  {
    Enclosed(LBRACKET, PrintItems(items), RBRACKET);
    ListIsPrinted(items);
  }

  lemma {:induction false} MembersArePrinted(ms: seq<Field>)
    ensures Utf8Bytes(PrintMembers(ms)) == MembersBytes(ms)
  {
    if ms != [] {
      Joined(Quoted(ms[0].key), COLON, Print(ms[0].value));
      if |ms| > 1 {
        MembersArePrinted(ms[1..]);
        Joined(PrintMember(ms[0]), COMMA, PrintMembers(ms[1..]));
      }
    }
  }

  lemma ObjectBytes(ms: seq<Field>)
    ensures SerializedBytes(Obj(ms)) == 2 + MembersBytes(ms)
  {
    Enclosed(LBRACE, PrintMembers(ms), RBRACE);
    MembersArePrinted(ms);
  }

  lemma {:induction false} ReplaceMember(ms: seq<Field>, i: nat, v: Json)
    requires i < |ms|
    ensures MembersBytes(ms[i := Field(ms[i].key, v)])
      == MembersBytes(ms) - SerializedBytes(ms[i].value) + SerializedBytes(v)
  {
    var other := ms[i := Field(ms[i].key, v)];
    if i > 0 {
      ReplaceMember(ms[1..], i - 1, v);
      assert other[1..] == ms[1..][i - 1 := Field(ms[i].key, v)];
    } else if |ms| > 1 {
      assert other[1..] == ms[1..];
    }
  }

  lemma {:induction false} ReplaceItem(items: seq<Json>, i: nat, v: Json)
    requires i < |items|
    ensures ListBytes(items[i := v]) == ListBytes(items) - SerializedBytes(items[i]) + SerializedBytes(v)
  {
    hide SerializedBytes;
    var init := items[..|items| - 1];
    if i < |items| - 1 {
      ReplaceItem(init, i, v);
      assert items[i := v][..|items| - 1] == init[i := v];
    } else {
      assert items[i := v][..|items| - 1] == init;
    }
  }

  // How the size moves when phases, operations and counts do.
  lemma SizeMoves(t: Trace, u: Trace)
    requires u.outcome == t.outcome && u.error == t.error
    ensures TraceBytes(u) - TraceBytes(t)
         == ListBytes(PhaseItems(u.phases)) - ListBytes(PhaseItems(t.phases))
          + ListBytes(OperationItems(u.operations)) - ListBytes(OperationItems(t.operations))
          + SerializedBytes(CountsJson(u.counts)) - SerializedBytes(CountsJson(t.counts))
  {
    hide Print, Utf8Bytes, CountsJson, OperationItems, PhaseItems, MembersBytes, SerializedBytes;
    var ms, p, o, c := Members(t), Arr(PhaseItems(u.phases)), Arr(OperationItems(u.operations)), CountsJson(u.counts);
    var a := ms[3 := Field(ms[3].key, p)];
    var b := a[4 := Field(a[4].key, o)];
    assert Members(u) == b[5 := Field(b[5].key, c)];
    ReplaceMember(ms, 3, p);
    ReplaceMember(a, 4, o);
    ReplaceMember(b, 5, c);
    ObjectBytes(ms);
    ObjectBytes(Members(u));
    ArrayBytes(PhaseItems(t.phases));
    ArrayBytes(PhaseItems(u.phases));
    ArrayBytes(OperationItems(t.operations));
    ArrayBytes(OperationItems(u.operations));
  }

  // ----- cutting down -----

  // The two parts of an operation that are given up first.
  datatype Part = Results | Arguments

  predicate HasPart(op: Operation, part: Part) {
    if part == Results then op.result.Some? else op.args != []
  }

  function WithoutPart(op: Operation, part: Part): Operation {
    if part == Results then op.(result := None) else op.(args := [])
  }

  // What giving up n parts adds to the counts.
  function CountParts(c: Counts, part: Part, n: nat): Counts {
    if part == Results then c.(droppedValues := c.droppedValues + n)
    else c.(droppedValues := c.droppedValues + n, truncatedValues := c.truncatedValues + n)
  }

  // How many operations from cut on have the part.
  function PartCount(ops: seq<Operation>, part: Part, cut: nat): (n: nat)
    requires cut <= |ops|
    ensures n <= |ops| - cut
    decreases |ops| - cut
  {
    if cut == |ops| then 0 else PartCount(ops, part, cut + 1) + if HasPart(ops[cut], part) then 1 else 0
  }

  // The trace whose operations from cut on have lost the part.
  function ShedFrom(t: Trace, part: Part, cut: nat): (u: Trace)
    requires cut <= |t.operations|
    ensures |u.operations| == |t.operations|
  {
    t.(operations := seq(|t.operations|, i requires 0 <= i < |t.operations| =>
                           if i < cut then t.operations[i] else WithoutPart(t.operations[i], part)),
       counts := CountParts(t.counts, part, PartCount(t.operations, part, cut)))
  }

  function FirstOperations(t: Trace, cut: nat): Trace
    requires cut <= |t.operations|
  {
    t.(operations := t.operations[..cut],
       counts := t.counts.(droppedOperations := t.counts.droppedOperations + (|t.operations| - cut)))
  }

  function FirstPhases(t: Trace, cut: nat): Trace
    requires cut <= |t.phases|
  {
    t.(phases := t.phases[..cut], counts := t.counts.(droppedValues := t.counts.droppedValues + (|t.phases| - cut)))
  }

  predicate Fits(t: Trace) {
    TraceBytes(t) <= MAX_TRACE_BYTES
  }

  // cut gives up as little as possible: it fits unless everything is given up, and nothing larger fits.
  ghost predicate ShedLeast(t: Trace, part: Part, cut: nat) {
    && cut <= |t.operations| && (cut == 0 || Fits(ShedFrom(t, part, cut)))
    && forall c :: cut < c <= |t.operations| ==> !Fits(ShedFrom(t, part, c))
  }

  ghost predicate MostOperations(t: Trace, cut: nat) {
    && cut <= |t.operations| && (cut == 0 || Fits(FirstOperations(t, cut)))
    && forall c :: cut < c <= |t.operations| ==> !Fits(FirstOperations(t, c))
  }

  ghost predicate MostPhases(t: Trace, cut: nat) {
    && cut <= |t.phases| && (cut == 0 || Fits(FirstPhases(t, cut)))
    && forall c :: cut < c <= |t.phases| ==> !Fits(FirstPhases(t, c))
  }

  lemma NothingShed(t: Trace, part: Part)
    ensures ShedFrom(t, part, |t.operations|) == t
  {
    assert ShedFrom(t, part, |t.operations|).operations == t.operations;
  }

  // Giving up the part of one more operation, and what that does to the size.
  lemma ShedStep(t: Trace, part: Part, cut: nat)
    requires cut < |t.operations|
    ensures var u, v := ShedFrom(t, part, cut + 1), ShedFrom(t, part, cut);
      && u.operations[cut] == t.operations[cut]
      && if HasPart(t.operations[cut], part)
         then v == u.(operations := u.operations[cut := WithoutPart(t.operations[cut], part)],
                      counts := CountParts(u.counts, part, 1))
         else v == u
  {
    var u, v, op := ShedFrom(t, part, cut + 1), ShedFrom(t, part, cut), t.operations[cut];
    if HasPart(op, part) {
      assert v.operations == u.operations[cut := WithoutPart(op, part)];
    } else {
      assert WithoutPart(op, part) == op;
      assert v.operations == u.operations;
    }
  }

  lemma ReplaceOperation(t: Trace, i: nat, op: Operation, c: Counts)
    requires i < |t.operations|
    ensures TraceBytes(t.(operations := t.operations[i := op], counts := c))
         == TraceBytes(t) + (SerializedBytes(OperationJson(op)) - SerializedBytes(OperationJson(t.operations[i]))
              + SerializedBytes(CountsJson(c)) - SerializedBytes(CountsJson(t.counts)))
  {
    hide TraceBytes, SerializedBytes, OperationJson, CountsJson, ListBytes;
    SizeMoves(t, t.(operations := t.operations[i := op], counts := c));
    ReplaceItem(OperationItems(t.operations), i, OperationJson(op));
    assert OperationItems(t.operations[i := op]) == OperationItems(t.operations)[i := OperationJson(op)];
  }

  lemma PopOperation(t: Trace, c: Counts)
    requires t.operations != []
    ensures var n := |t.operations|;
      TraceBytes(t.(operations := t.operations[..n - 1], counts := c))
         == TraceBytes(t) - SerializedBytes(OperationJson(t.operations[n - 1])) - (if n > 1 then 1 else 0)
              + (SerializedBytes(CountsJson(c)) - SerializedBytes(CountsJson(t.counts)))
  {
    hide TraceBytes, SerializedBytes, OperationJson, CountsJson;
    var n := |t.operations|;
    SizeMoves(t, t.(operations := t.operations[..n - 1], counts := c));
    assert OperationItems(t.operations)[..n - 1] == OperationItems(t.operations[..n - 1]);
  }

  lemma PopPhase(t: Trace, c: Counts)
    requires t.phases != []
    ensures var n := |t.phases|;
      TraceBytes(t.(phases := t.phases[..n - 1], counts := c))
         == TraceBytes(t) - SerializedBytes(Str(t.phases[n - 1])) - (if n > 1 then 1 else 0)
              + (SerializedBytes(CountsJson(c)) - SerializedBytes(CountsJson(t.counts)))
  {
    hide TraceBytes, SerializedBytes, CountsJson;
    var n := |t.phases|;
    SizeMoves(t, t.(phases := t.phases[..n - 1], counts := c));
    assert PhaseItems(t.phases)[..n - 1] == PhaseItems(t.phases[..n - 1]);
  }

  // ----- the four loops -----

  method ShedParts(input: Trace, part: Part, bytes: int) returns (t: Trace, traceBytes: int, ghost cut: nat)
    requires bytes == TraceBytes(input)
    ensures ShedLeast(input, part, cut) && t == ShedFrom(input, part, cut)
    ensures traceBytes == TraceBytes(t)
  {
    hide TraceBytes, SerializedBytes, OperationJson, CountsJson;
    t, traceBytes, cut := input, bytes, |input.operations|;
    var index := |input.operations|;
    NothingShed(input, part);
    hide ShedFrom, HasPart;
    while traceBytes > MAX_TRACE_BYTES && index > 0
      invariant 0 <= index == cut <= |input.operations|
      invariant t == ShedFrom(input, part, cut) && traceBytes == TraceBytes(t)
      invariant forall c :: cut < c <= |input.operations| ==> !Fits(ShedFrom(input, part, c))
      decreases index
    {
      assert !Fits(ShedFrom(input, part, cut));
      index := index - 1;
      ShedStep(input, part, index);
      cut := index;
      var operation := t.operations[index];
      if !HasPart(operation, part) {
        continue;
      }
      var smaller, counts := WithoutPart(operation, part), CountParts(t.counts, part, 1);
      ReplaceOperation(t, index, smaller, counts);
      traceBytes := traceBytes + (SerializedBytes(OperationJson(smaller)) - SerializedBytes(OperationJson(operation))
                                  + SerializedBytes(CountsJson(counts)) - SerializedBytes(CountsJson(t.counts)));
      t := t.(operations := t.operations[index := smaller], counts := counts);
    }
  }

  method PopOperations(input: Trace, bytes: int) returns (t: Trace, traceBytes: int, ghost cut: nat)
    requires bytes == TraceBytes(input)
    ensures MostOperations(input, cut) && t == FirstOperations(input, cut)
    ensures traceBytes == TraceBytes(t)
  {
    hide TraceBytes, SerializedBytes, OperationJson, CountsJson;
    t, traceBytes, cut := input, bytes, |input.operations|;
    assert input.operations[..cut] == input.operations;
    while traceBytes > MAX_TRACE_BYTES && t.operations != []
      invariant cut <= |input.operations| && t == FirstOperations(input, cut) && traceBytes == TraceBytes(t)
      invariant forall c :: cut < c <= |input.operations| ==> !Fits(FirstOperations(input, c))
      decreases |t.operations|
    {
      assert !Fits(FirstOperations(input, cut));
      var n := |t.operations|;
      var operation := t.operations[n - 1];
      var counts := t.counts.(droppedOperations := t.counts.droppedOperations + 1);
      PopOperation(t, counts);
      traceBytes := traceBytes - SerializedBytes(OperationJson(operation));
      if n - 1 > 0 {
        traceBytes := traceBytes - 1;
      }
      traceBytes := traceBytes + (SerializedBytes(CountsJson(counts)) - SerializedBytes(CountsJson(t.counts)));
      t := t.(operations := t.operations[..n - 1], counts := counts);
      cut := cut - 1;
      assert input.operations[..cut + 1][..cut] == input.operations[..cut];
    }
  }

  method PopPhases(input: Trace, bytes: int) returns (t: Trace, traceBytes: int, ghost cut: nat)
    requires bytes == TraceBytes(input)
    ensures MostPhases(input, cut) && t == FirstPhases(input, cut)
    ensures traceBytes == TraceBytes(t)
  {
    hide TraceBytes, SerializedBytes, CountsJson;
    t, traceBytes, cut := input, bytes, |input.phases|;
    assert input.phases[..cut] == input.phases;
    while traceBytes > MAX_TRACE_BYTES && t.phases != []
      invariant cut <= |input.phases| && t == FirstPhases(input, cut) && traceBytes == TraceBytes(t)
      invariant forall c :: cut < c <= |input.phases| ==> !Fits(FirstPhases(input, c))
      decreases |t.phases|
    {
      assert !Fits(FirstPhases(input, cut));
      var n := |t.phases|;
      var phase := t.phases[n - 1];
      var counts := t.counts.(droppedValues := t.counts.droppedValues + 1);
      PopPhase(t, counts);
      traceBytes := traceBytes - SerializedBytes(Str(phase));
      if n - 1 > 0 {
        traceBytes := traceBytes - 1;
      }
      traceBytes := traceBytes + (SerializedBytes(CountsJson(counts)) - SerializedBytes(CountsJson(t.counts)));
      t := t.(phases := t.phases[..n - 1], counts := counts);
      cut := cut - 1;
      assert input.phases[..cut + 1][..cut] == input.phases[..cut];
    }
  }

  // ----- all four together -----

  // r is t cut down: results first, then arguments, then operations, then phases, each from the end,
  // each only while the trace does not fit, and no further than needed.
  ghost predicate CutDown(t: Trace, r: Trace) {
    exists a: nat, b: nat, c: nat, d: nat :: CutAt(t, r, a, b, c, d)
  }

  ghost predicate CutAt(t: Trace, r: Trace, a: nat, b: nat, c: nat, d: nat) {
    && ShedLeast(t, Results, a)
    && var noResults := ShedFrom(t, Results, a);
    && ShedLeast(noResults, Arguments, b)
    && var noArgs := ShedFrom(noResults, Arguments, b);
    && MostOperations(noArgs, c)
    && var fewer := FirstOperations(noArgs, c);
    && MostPhases(fewer, d) && r == FirstPhases(fewer, d)
  }

  method CutToSize(input: Trace) returns (t: Trace)
    ensures CutDown(input, t)
  {
    hide TraceBytes, ShedLeast, ShedFrom, MostOperations, FirstOperations, MostPhases, FirstPhases;
    var traceBytes: int := TraceBytes(input);
    ghost var a, b, c, d;
    t, traceBytes, a := ShedParts(input, Results, traceBytes);
    t, traceBytes, b := ShedParts(t, Arguments, traceBytes);
    t, traceBytes, c := PopOperations(t, traceBytes);
    t, traceBytes, d := PopPhases(t, traceBytes);
    assert CutAt(input, t, a, b, c, d);
  }

  // What is left of an operation: everything except possibly its result and its arguments.
  ghost predicate Remains(op: Operation, left: Operation) {
    && left == op.(result := left.result, args := left.args)
    && (left.result == op.result || left.result == None) && (left.args == op.args || left.args == [])
  }

  // The operations left are a prefix, whatever is given up is counted, and the trace fits unless both lists are empty.
  lemma CutKeeps(t: Trace, r: Trace)
    requires CutDown(t, r)
    ensures r.outcome == t.outcome && r.error == t.error && r.phases <= t.phases
    ensures |r.operations| <= |t.operations|
    ensures forall i :: 0 <= i < |r.operations| ==> Remains(t.operations[i], r.operations[i])
    ensures |r.operations| + r.counts.droppedOperations == |t.operations| + t.counts.droppedOperations
    ensures Fits(r) || (r.operations == [] && r.phases == [])
    ensures Fits(t) ==> r == t
  {
    hide TraceBytes;
    var a: nat, b: nat, c: nat, d: nat :| CutAt(t, r, a, b, c, d);
    var noResults := ShedFrom(t, Results, a);
    var noArgs := ShedFrom(noResults, Arguments, b);
    var fewer := FirstOperations(noArgs, c);
    if Fits(t) {
      NothingShed(t, Results);
      NothingShed(t, Arguments);
      assert t.operations[..|t.operations|] == t.operations && t.phases[..|t.phases|] == t.phases;
      assert FirstOperations(t, |t.operations|) == t && FirstPhases(t, |t.phases|) == t;
    }
    if d == 0 && c > 0 {
      FitsThrough(fewer);
    }
  }

  // A trace that fits keeps all its phases.
  lemma FitsThrough(t: Trace)
    requires Fits(t)
    ensures Fits(FirstPhases(t, |t.phases|))
  {
    hide TraceBytes;
    assert t.phases[..|t.phases|] == t.phases;
    assert FirstPhases(t, |t.phases|) == t;
  }

  // ----- what is counted -----

  // Whether the part of operation i is lost: it had one, and it has none left, or is not there any more.
  ghost predicate Loses(t: Trace, r: Trace, part: Part, i: nat)
    requires i < |t.operations|
  {
    HasPart(t.operations[i], part) && (i >= |r.operations| || !HasPart(r.operations[i], part))
  }

  // How many operations from k on lose the part.
  ghost function Losses(t: Trace, r: Trace, part: Part, k: nat): nat
    requires k <= |t.operations|
    decreases |t.operations| - k
  {
    if k == |t.operations| then 0 else Losses(t, r, part, k + 1) + if Loses(t, r, part, k) then 1 else 0
  }

  lemma {:induction false} LossesFrom(t: Trace, r: Trace, part: Part, cut: nat, k: nat)
    requires k <= |t.operations| && cut <= |t.operations|
    requires forall i :: 0 <= i < |t.operations| ==>
      (Loses(t, r, part, i) <==> i >= cut && HasPart(t.operations[i], part))
    ensures Losses(t, r, part, k) == PartCount(t.operations, part, if k < cut then cut else k)
    decreases |t.operations| - k
  {
    if k < |t.operations| {
      LossesFrom(t, r, part, cut, k + 1);
    }
  }

  lemma {:induction false} SamePartCount(a: seq<Operation>, b: seq<Operation>, part: Part, k: nat)
    requires |a| == |b| && k <= |a| && forall i :: 0 <= i < |a| ==> (HasPart(a[i], part) <==> HasPart(b[i], part))
    ensures PartCount(a, part, k) == PartCount(b, part, k)
    decreases |a| - k
  {
    if k < |a| {
      SamePartCount(a, b, part, k + 1);
    }
  }

  // Every result, argument list, phase and operation that is given up is counted once, and nothing else is.
  lemma CountsAreExact(t: Trace, r: Trace)
    requires CutDown(t, r)
    ensures var results, args := Losses(t, r, Results, 0), Losses(t, r, Arguments, 0);
      && |r.phases| <= |t.phases| && |r.operations| <= |t.operations|
      && r.counts.droppedValues == t.counts.droppedValues + results + args + (|t.phases| - |r.phases|)
      && r.counts.truncatedValues == t.counts.truncatedValues + args
      && r.counts.redactedValues == t.counts.redactedValues
      && r.counts.droppedOperations == t.counts.droppedOperations + (|t.operations| - |r.operations|)
  {
    hide TraceBytes, PartCount, Losses;
    var a: nat, b: nat, c: nat, d: nat :| CutAt(t, r, a, b, c, d);
    var noResults := ShedFrom(t, Results, a);
    var noArgs := ShedFrom(noResults, Arguments, b);
    AllShed(t, noResults, noArgs, a, b, c);
    SamePartCount(t.operations, noResults.operations, Arguments, b);
    LossesFrom(t, r, Results, a, 0);
    LossesFrom(t, r, Arguments, b, 0);
  }

  // Operations are only given up when all results and arguments are.
  lemma AllShed(t: Trace, noResults: Trace, noArgs: Trace, a: nat, b: nat, c: nat)
    requires ShedLeast(t, Results, a) && noResults == ShedFrom(t, Results, a)
    requires ShedLeast(noResults, Arguments, b) && noArgs == ShedFrom(noResults, Arguments, b)
    requires MostOperations(noArgs, c)
    ensures c < |t.operations| ==> a == 0 && b == 0
  {
    hide TraceBytes, PartCount;
    NothingShed(noResults, Arguments);
    assert noArgs.operations[..|noArgs.operations|] == noArgs.operations;
    assert FirstOperations(noArgs, |noArgs.operations|) == noArgs;
    assert Fits(noArgs) ==> c == |t.operations|;
    assert Fits(noResults) ==> noArgs == noResults;
  }

  // ----- what is serialized -----

  // The members that have a value, in order.
  ghost function Present(ms: seq<(string, Option<Json>)>): seq<Field> {
    if ms == [] then [] else
      var (key, v) := ms[|ms| - 1];
      Present(ms[..|ms| - 1]) + if v.Some? then [Field(Chars(key), v.value)] else []
  }

  lemma {:induction false} PresentConcat(a: seq<(string, Option<Json>)>, b: seq<(string, Option<Json>)>)
    ensures Present(a + b) == Present(a) + Present(b)
  {
    if b == [] {
      assert a + b == a;
    } else {
      PresentConcat(a, b[..|b| - 1]);
      assert (a + b)[..|a + b| - 1] == a + b[..|b| - 1];
    }
  }

  lemma PresentOne(key: string, v: Option<Json>)
    ensures Present([(key, v)]) == Optional(key, v)
  {
    assert [(key, v)][..0] == [];
  }

  lemma PresentTwo(k: string, v: Option<Json>, l: string, w: Option<Json>)
    ensures Present([(k, v), (l, w)]) == Optional(k, v) + Optional(l, w)
  {
    PresentOne(k, v);
    PresentOne(l, w);
    PresentConcat([(k, v)], [(l, w)]);
    assert [(k, v)] + [(l, w)] == [(k, v), (l, w)];
  }

  lemma PresentThree(k: string, v: Option<Json>, l: string, w: Option<Json>, m: string, x: Option<Json>)
    ensures Present([(k, v), (l, w), (m, x)]) == Optional(k, v) + Optional(l, w) + Optional(m, x)
  {
    PresentTwo(k, v, l, w);
    PresentOne(m, x);
    PresentConcat([(k, v), (l, w)], [(m, x)]);
    assert [(k, v), (l, w)] + [(m, x)] == [(k, v), (l, w), (m, x)];
  }

  ghost function Quote(s: string): Option<Json> { Some(Str(Chars(s))) }

  ghost function Maybe(t: Option<Text>): Option<Json> {
    if t.None? then None else Some(Str(t.value))
  }

  ghost function MaybeFilled(t: Option<Text>): Option<Json> {
    if t == Some([]) then None else Maybe(t)
  }

  ghost function RiskName(r: Option<Risk>): Option<Json> {
    match r
    case None => None
    case Some(Read) => Quote("read")
    case Some(Write) => Quote("write")
    case Some(Execute) => Quote("execute")
    case Some(Network) => Quote("network")
    case Some(Agent) => Quote("agent")
  }

  ghost function EffectName(e: Option<Effect>): Option<Json> {
    match e
    case None => None
    case Some(NoEffect) => Quote("none")
    case Some(Workspace) => Quote("workspace")
    case Some(State) => Quote("state")
    case Some(External) => Quote("external")
  }

  ghost function StageName(s: Option<Stage>): Option<Json> {
    match s
    case None => None
    case Some(Resolve) => Quote("resolve")
    case Some(Prepare) => Quote("prepare")
    case Some(Validate) => Quote("validate")
    case Some(Approve) => Quote("approve")
    case Some(Invoke) => Quote("invoke")
    case Some(Guard) => Quote("guard")
  }

  ghost function OutcomeName(o: Outcome): Option<Json> {
    match o
    case Succeeded => Quote("succeeded")
    case Failed => Quote("failed")
    case Aborted => Quote("aborted")
    case TimedOut => Quote("timed_out")
  }

  // A serialized operation: its members by name, the empty and absent ones left out.
  lemma OperationIsSerialized(op: Operation)
    ensures OperationJson(op) == Obj(Present(
      [("type", Quote("call")), ("sequence", Some(Natural(op.sequence))), ("ref", Some(Str(op.ref)))]
      + [("provider", MaybeFilled(op.provider)), ("action", MaybeFilled(op.action))]
      + [("risk", RiskName(op.risk)), ("effect", EffectName(op.effect))]
      + [("args", Some(Obj(op.args))), ("outcome", OutcomeName(op.outcome))]
      + [("failureStage", StageName(op.failureStage)), ("error", Maybe(op.error)), ("result", op.result)]))
  {
    hide Chars, Natural, Present;
    var a := [("type", Quote("call")), ("sequence", Some(Natural(op.sequence))), ("ref", Some(Str(op.ref)))];
    var b := [("provider", MaybeFilled(op.provider)), ("action", MaybeFilled(op.action))];
    var c := [("risk", RiskName(op.risk)), ("effect", EffectName(op.effect))];
    var d := [("args", Some(Obj(op.args))), ("outcome", OutcomeName(op.outcome))];
    var e := [("failureStage", StageName(op.failureStage)), ("error", Maybe(op.error)), ("result", op.result)];
    PresentThree("type", a[0].1, "sequence", a[1].1, "ref", a[2].1);
    PresentTwo("provider", b[0].1, "action", b[1].1);
    PresentTwo("risk", c[0].1, "effect", c[1].1);
    PresentTwo("args", d[0].1, "outcome", d[1].1);
    PresentThree("failureStage", e[0].1, "error", e[1].1, "result", e[2].1);
    PresentConcat(a + b + c + d, e);
    PresentConcat(a + b + c, d);
    PresentConcat(a + b, c);
    PresentConcat(a, b);
    OperationParts(op, Present(a), Present(b), Present(c), Present(d), Present(e));
  }

  lemma OperationParts(op: Operation, a: seq<Field>, b: seq<Field>, c: seq<Field>, d: seq<Field>, e: seq<Field>)
    requires a == Optional("type", Quote("call")) + Optional("sequence", Some(Natural(op.sequence)))
                  + Optional("ref", Some(Str(op.ref)))
    requires b == Optional("provider", MaybeFilled(op.provider)) + Optional("action", MaybeFilled(op.action))
    requires c == Optional("risk", RiskName(op.risk)) + Optional("effect", EffectName(op.effect))
    requires d == Optional("args", Some(Obj(op.args))) + Optional("outcome", OutcomeName(op.outcome))
    requires e == Optional("failureStage", StageName(op.failureStage)) + Optional("error", Maybe(op.error))
                  + Optional("result", op.result)
    ensures OperationJson(op) == Obj(a + b + c + d + e)
  {
    NamesAreTexts(op);
    hide Chars, Natural, RiskName, EffectName, StageName, OutcomeName, MaybeFilled, NonEmpty;
    hide RiskText, EffectText, StageText, OutcomeText;
    var head := [Field(Chars("type"), Str(Chars("call"))), Field(Chars("sequence"), Natural(op.sequence)),
                 Field(Chars("ref"), Str(op.ref))];
    var middle := [Field(Chars("args"), Obj(op.args)), Field(Chars("outcome"), Str(OutcomeText(op.outcome)))];
    assert a == head && d == middle;
    JoinParts(head, Optional("provider", MaybeFilled(op.provider)), Optional("action", MaybeFilled(op.action)),
              Optional("risk", RiskName(op.risk)), Optional("effect", EffectName(op.effect)), middle,
              Optional("failureStage", StageName(op.failureStage)), Optional("error", Maybe(op.error)),
              Optional("result", op.result));
    hide Optional;
  }

  lemma NamesAreTexts(op: Operation)
    ensures RiskName(op.risk) == if op.risk.Some? then Some(Str(RiskText(op.risk.value))) else None
    ensures EffectName(op.effect) == if op.effect.Some? then Some(Str(EffectText(op.effect.value))) else None
    ensures StageName(op.failureStage)
      == if op.failureStage.Some? then Some(Str(StageText(op.failureStage.value))) else None
    ensures OutcomeName(op.outcome) == Some(Str(OutcomeText(op.outcome)))
    ensures NonEmpty(op.provider) == MaybeFilled(op.provider) && NonEmpty(op.action) == MaybeFilled(op.action)
    ensures Maybe(op.error) == if op.error.Some? then Some(Str(op.error.value)) else None
  {
    hide Chars;
  }

  lemma JoinParts(h: seq<Field>, p: seq<Field>, a: seq<Field>, r: seq<Field>, e: seq<Field>, m: seq<Field>,
                  f: seq<Field>,
                  g: seq<Field>, x: seq<Field>)
    ensures h + p + a + r + e + m + f + g + x == h + (p + a) + (r + e) + m + (f + g + x)
  {}

  // A serialized trace, likewise.
  lemma TraceIsSerialized(t: Trace)
    ensures Members(t) == Present(
      [("kind", Quote("pi-fabric.execution")), ("version", Some(Natural(1))), ("outcome", OutcomeName(t.outcome))]
      + [("phases", Some(Arr(PhaseItems(t.phases)))), ("operations", Some(Arr(OperationItems(t.operations))))]
      + [("counts", Some(CountsJson(t.counts))), ("error", Maybe(t.error))])
    ensures CountsJson(t.counts) == Obj(Present(
      [("droppedValues", Some(Natural(t.counts.droppedValues))),
       ("truncatedValues", Some(Natural(t.counts.truncatedValues)))]
      + [("redactedValues", Some(Natural(t.counts.redactedValues))),
         ("droppedOperations", Some(Natural(t.counts.droppedOperations)))]))
  {
    hide Chars, Natural, Present, PhaseItems, OperationItems;
    var a := [("kind", Quote("pi-fabric.execution")), ("version", Some(Natural(1))),
              ("outcome", OutcomeName(t.outcome))];
    var b := [("phases", Some(Arr(PhaseItems(t.phases)))), ("operations", Some(Arr(OperationItems(t.operations))))];
    var c := [("counts", Some(CountsJson(t.counts))), ("error", Maybe(t.error))];
    var d := [("droppedValues", Some(Natural(t.counts.droppedValues))),
              ("truncatedValues", Some(Natural(t.counts.truncatedValues)))];
    var e := [("redactedValues", Some(Natural(t.counts.redactedValues))),
              ("droppedOperations", Some(Natural(t.counts.droppedOperations)))];
    PresentThree("kind", a[0].1, "version", a[1].1, "outcome", a[2].1);
    PresentTwo("phases", b[0].1, "operations", b[1].1);
    PresentTwo("counts", c[0].1, "error", c[1].1);
    PresentTwo("droppedValues", d[0].1, "truncatedValues", d[1].1);
    PresentTwo("redactedValues", e[0].1, "droppedOperations", e[1].1);
    PresentConcat(a + b, c);
    PresentConcat(a, b);
    PresentConcat(d, e);
  }

  // ----- an empty trace fits -----

  lemma {:induction false} Utf8AtMostThree(t: Text)
    ensures Utf8Bytes(t) <= 3 * |t|
  {
    if t != [] {
      Utf8AtMostThree(if StartsWithPair(t) then t[2..] else t[1..]);
    }
  }

  lemma {:induction false} EscapeAtMostSix(t: Text)
    ensures |Escape(t)| <= 6 * |t|
  {
    if t != [] {
      EscapeAtMostSix(if StartsWithPair(t) then t[2..] else t[1..]);
    }
  }

  lemma QuotedBytes(t: Text)
    ensures Utf8Bytes(Quoted(t)) <= 18 * |t| + 2
  {
    EscapeAtMostSix(t);
    Utf8AtMostThree(Escape(t));
    Enclosed(QUOTE, Escape(t), QUOTE);
  }

  lemma TextBytes(t: Text, limit: nat)
    requires |t| <= limit
    ensures SerializedBytes(Str(t)) <= 18 * limit + 2
  {
    QuotedBytes(t);
  }

  // Counts of up to sixteen digits, as every integer the host represents exactly has.
  const MAX_COUNT := 10_000_000_000_000_000

  lemma {:induction false} DigitsAtMost(n: nat, k: nat)
    requires k >= 1 && n as real < Pow(10.0, k)
    ensures |Digits(n)| <= k
  {
    if n >= 10 {
      assert Pow(10.0, 1) == 10.0;
      DigitsAtMost(n / 10, k - 1);
    }
  }

  lemma SixteenDigits()
    ensures Pow(10.0, 16) == MAX_COUNT as real
  {
    assert Pow(10.0, 4) == 10_000.0;
    assert Pow(10.0, 8) == 100_000_000.0;
    assert Pow(10.0, 12) == 1_000_000_000_000.0;
  }

  lemma NaturalBytes(n: nat)
    requires n < MAX_COUNT
    ensures SerializedBytes(Natural(n)) <= 48
  {
    SixteenDigits();
    DigitsAtMost(n, 16);
    assert Print(Natural(n)) == Digits(n);
    Utf8AtMostThree(Digits(n));
  }

  lemma {:induction false} MembersAtMost(ms: seq<Field>, limit: nat)
    requires forall m :: m in ms ==> MemberBytes(m) <= limit
    ensures MembersBytes(ms) <= |ms| * (limit + 1)
  {
    hide MemberBytes;
    if |ms| > 1 {
      MembersAtMost(ms[1..], limit);
      NextMultiple(|ms[1..]|, limit + 1);
    }
  }

  lemma NextMultiple(n: nat, x: nat)
    ensures (n + 1) * x == n * x + x
  {}

  predicate SmallCounts(c: Counts, limit: int) {
    c.droppedValues < limit && c.truncatedValues < limit && c.redactedValues < limit && c.droppedOperations < limit
  }

  lemma MemberAtMost(key: string, v: Json, limit: nat)
    requires |key| <= 20 && SerializedBytes(v) <= limit
    ensures MemberBytes(Field(Chars(key), v)) <= limit + 363
  {
    QuotedBytes(Chars(key));
  }

  lemma CountsBytes(c: Counts)
    requires SmallCounts(c, MAX_COUNT)
    ensures SerializedBytes(CountsJson(c)) <= 1650
  {
    hide MemberBytes, MembersBytes, SerializedBytes, Natural, Chars;
    NaturalBytes(c.droppedValues);
    NaturalBytes(c.truncatedValues);
    NaturalBytes(c.redactedValues);
    NaturalBytes(c.droppedOperations);
    MemberAtMost("droppedValues", Natural(c.droppedValues), 48);
    MemberAtMost("truncatedValues", Natural(c.truncatedValues), 48);
    MemberAtMost("redactedValues", Natural(c.redactedValues), 48);
    MemberAtMost("droppedOperations", Natural(c.droppedOperations), 48);
    var ms := CountsJson(c).members;
    MembersAtMost(ms, 411);
    ObjectBytes(ms);
  }

  // With nothing left in its lists, a trace fits.
  lemma EmptyTraceFits(t: Trace)
    requires t.operations == [] && t.phases == [] && SmallCounts(t.counts, MAX_COUNT)
    requires t.error.Some? ==> |t.error.value| <= 20
    ensures Fits(t)
  {
    hide MemberBytes, MembersBytes, SerializedBytes, Natural, Chars, CountsJson, OutcomeText;
    CountsBytes(t.counts);
    NaturalBytes(1);
    ArrayBytes([]);
    OutcomeLength(t.outcome);
    TextBytes(Chars("pi-fabric.execution"), 20);
    TextBytes(OutcomeText(t.outcome), 20);
    MemberAtMost("kind", Str(Chars("pi-fabric.execution")), 1650);
    MemberAtMost("version", Natural(1), 1650);
    MemberAtMost("outcome", Str(OutcomeText(t.outcome)), 1650);
    MemberAtMost("phases", Arr(PhaseItems(t.phases)), 1650);
    MemberAtMost("operations", Arr(OperationItems(t.operations)), 1650);
    MemberAtMost("counts", CountsJson(t.counts), 1650);
    if t.error.Some? {
      TextBytes(t.error.value, 20);
      MemberAtMost("error", Str(t.error.value), 1650);
    }
    MembersAtMost(Members(t), 2013);
    ObjectBytes(Members(t));
  }

  lemma OutcomeLength(o: Outcome)
    ensures |OutcomeText(o)| <= 20
  {}

  // Whatever the operations and phases were, the sealed trace is within the limit.
  lemma CutFits(t: Trace, r: Trace)
    requires CutDown(t, r) && (t.error.Some? ==> |t.error.value| <= 20)
    requires SmallCounts(t.counts, MAX_COUNT - 2 * |t.operations| - |t.phases|)
    requires 2 * |t.operations| + |t.phases| < MAX_COUNT
    ensures Fits(r)
  {
    CutKeeps(t, r);
    if r.operations == [] && r.phases == [] {
      CutCounts(t, r);
      EmptyTraceFits(r);
    }
  }

  lemma CutCounts(t: Trace, r: Trace)
    requires CutDown(t, r)
    ensures r.counts.droppedValues <= t.counts.droppedValues + 2 * |t.operations| + |t.phases|
    ensures r.counts.truncatedValues <= t.counts.truncatedValues + |t.operations|
    ensures r.counts.redactedValues == t.counts.redactedValues
    ensures r.counts.droppedOperations <= t.counts.droppedOperations + |t.operations|
  {
    hide TraceBytes, PartCount;
    var a: nat, b: nat, c: nat, d: nat :| CutAt(t, r, a, b, c, d);
  }
}
