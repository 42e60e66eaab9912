// Draining a worker's lifecycle file and attributing its token usage (src/agents/one-shot-manager.ts).
module Lifecycle {
  import opened Basics
  import opened Lines

  datatype Usage = Usage(input: int, output: int, cacheRead: int, cacheWrite: int, cost: real)

  const NO_USAGE := Usage(0, 0, 0, 0, 0.0)

  function Plus(a: Usage, b: Usage): Usage {
    Usage(a.input + b.input, a.output + b.output, a.cacheRead + b.cacheRead, a.cacheWrite + b.cacheWrite,
          a.cost + b.cost)
  }

  function Tokens(u: Usage): int {
    u.input + u.output + u.cacheRead + u.cacheWrite
  }

  // The usage payload of a lifecycle line, when it is a well-formed tokens.usage record.
  type UsageParser = Bytes -> Option<Usage>

  function Usages(lines: seq<Bytes>, parse: UsageParser): seq<Usage> {
    if lines == [] then [] else
      var u := parse(lines[|lines| - 1]);
      Usages(lines[..|lines| - 1], parse) + if u.Some? then [u.value] else []
  }

  function Total(us: seq<Usage>): Usage {
    if us == [] then NO_USAGE else Plus(Total(us[..|us| - 1]), us[|us| - 1])
  }

  datatype LedgerEntry = LedgerEntry(tokens: int, cost: real)

  // Nothing to record.
  predicate Skipped(tokens: int, cost: real) {
    tokens <= 0 && cost <= 0.0
  }

  function Appended(ledger: seq<LedgerEntry>, tokens: int, cost: real): seq<LedgerEntry> {
    if Skipped(tokens, cost) then ledger else ledger + [LedgerEntry(tokens, cost)]
  }

  function Recorded(ledger: seq<LedgerEntry>, us: seq<Usage>): seq<LedgerEntry> {
    if us == [] then ledger else Appended(Recorded(ledger, us[..|us| - 1]), Tokens(us[|us| - 1]), us[|us| - 1].cost)
  }

  function LedgerTokens(ledger: seq<LedgerEntry>): int {
    if ledger == [] then 0 else LedgerTokens(ledger[..|ledger| - 1]) + ledger[|ledger| - 1].tokens
  }

  // What the final cumulative usage has beyond the streamed one, component by component.
  function Residual(final: Usage, streamed: Usage): Usage {
    Usage(MaxInt(0, final.input - streamed.input), MaxInt(0, final.output - streamed.output),
          MaxInt(0, final.cacheRead - streamed.cacheRead), MaxInt(0, final.cacheWrite - streamed.cacheWrite),
          MaxReal(0.0, final.cost - streamed.cost))
  }

  function TokensOfMax(a: Usage, b: Usage): int {
    MaxInt(a.input, b.input) + MaxInt(a.output, b.output) + MaxInt(a.cacheRead, b.cacheRead)
      + MaxInt(a.cacheWrite, b.cacheWrite)
  }

  // How far the file was read, the unfinished line, and every line handed to the parser.
  datatype Drained = Drained(offset: nat, remainder: Bytes, lines: seq<Bytes>)

  const NOTHING_DRAINED := Drained(0, [], [])

  // A drain of the file as it looks now. A shrunken file is read anew; an unfinished line that has
  // grown too long is given up.
  function DrainStep(d: Drained, content: Bytes): Drained {
    var start := if |content| < d.offset then Drained(0, [], d.lines) else d;
    if |content| == start.offset then start else
      var combined := start.remainder + content[start.offset..];
      if HasNewline(combined) then Drained(|content|, Tail(combined), start.lines + CompleteLines(combined))
      else Drained(|content|, if |combined| <= MAX_LINE_BYTES then combined else [], start.lines)
  }

  class ManagedRun {
    const parse: UsageParser
    const hasBudget: bool
    var lifecycleOffset: nat
    var lifecycleRemainder: Bytes
    var usageEmitted: Usage
    var ledger: seq<LedgerEntry>
    var settled: bool
    var releases: nat
    ghost var lines: seq<Bytes>

    constructor (parse: UsageParser, hasBudget: bool)
      ensures Valid() && State() == NOTHING_DRAINED && !settled
      ensures this.parse == parse && this.hasBudget == hasBudget
    {
      this.parse, this.hasBudget := parse, hasBudget;
      lifecycleOffset, lifecycleRemainder, usageEmitted, ledger, settled, releases := 0, [], NO_USAGE, [], false, 0;
      lines := [];
    }

    ghost function State(): Drained
      reads this
    {
      Drained(lifecycleOffset, lifecycleRemainder, lines)
    }

    // Each line was applied once, and the permit is given back with the settlement.
    ghost predicate Valid()
      reads this
    {
      && usageEmitted == Total(Usages(lines, parse))
      && releases == (if settled then 1 else 0)
      && (!settled ==> ledger == Streamed())
    }

    ghost function Streamed(): seq<LedgerEntry>
      reads this
    {
      if hasBudget then Recorded([], Usages(lines, parse)) else []
    }

    method DrainLifecycle(content: Bytes)
      requires Valid() && !settled
      modifies this
      ensures Valid() && !settled && State() == DrainStep(old(State()), content) && releases == old(releases)
    {
      if |content| < lifecycleOffset {
        lifecycleOffset, lifecycleRemainder := 0, [];
      }
      if |content| == lifecycleOffset { return; }
      var appended := content[lifecycleOffset..];
      lifecycleOffset := |content|;
      Absorb(lifecycleRemainder + appended);
    }

    // What was left over and what was appended, together.
    method Absorb(combined: Bytes)
      requires Valid() && !settled
      modifies this`lifecycleRemainder, this`usageEmitted, this`ledger, this`lines
      ensures Valid()
      ensures HasNewline(combined) ==>
        lifecycleRemainder == Tail(combined) && lines == old(lines) + CompleteLines(combined)
      ensures !HasNewline(combined) ==>
        lifecycleRemainder == (if |combined| <= MAX_LINE_BYTES then combined else []) && lines == old(lines)
    {
      var finalNewline := LastNewline(combined);
      TailAfterLast(combined);
      if finalNewline < 0 {
        lifecycleRemainder := if |combined| <= MAX_LINE_BYTES then combined else [];
        return;
      }
      lifecycleRemainder := combined[finalNewline + 1..];
      LinesBeforeLast(combined);
      Apply(CompleteLines(combined[..finalNewline + 1]));
    }

    method Apply(completed: seq<Bytes>)
      requires Valid() && !settled
      modifies this`usageEmitted, this`ledger, this`lines
      ensures Valid() && lines == old(lines) + completed
    {
      UsagesConcat(lines, completed, parse);
      ApplyLines(completed, Usages(lines, parse));
      lines := lines + completed;
    }

    // The loop over the completed lines.
    method ApplyLines(lines: seq<Bytes>, ghost applied: seq<Usage>)
      requires usageEmitted == Total(applied)
      requires ledger == if hasBudget then Recorded([], applied) else []
      modifies this`usageEmitted, this`ledger
      ensures usageEmitted == Total(applied + Usages(lines, parse))
      ensures ledger == if hasBudget then Recorded([], applied + Usages(lines, parse)) else []
    {
      assert applied + Usages([], parse) == applied;
      for i := 0 to |lines|
        invariant usageEmitted == Total(applied + Usages(lines[..i], parse))
        invariant ledger == if hasBudget then Recorded([], applied + Usages(lines[..i], parse)) else []
      {
        ghost var done := Usages(lines[..i], parse);
        assert lines[..i + 1][..i] == lines[..i];
        var usage := parse(lines[i]);
        if usage.Some? {
          OneMoreUsage(applied + done, usage.value);
          assert applied + (done + [usage.value]) == applied + done + [usage.value];
          OnTokenUsage(usage.value);
        } else {
          assert done + [] == done;
        }
      }
      assert lines[..|lines|] == lines;
    }

    method AppendLedger(tokens: int, cost: real)
      modifies this`ledger
      ensures ledger == if hasBudget then Appended(old(ledger), tokens, cost) else old(ledger)
    {
      if !hasBudget || (tokens <= 0 && cost <= 0.0) { return; }
      ledger := ledger + [LedgerEntry(tokens, cost)];
    }

    method OnTokenUsage(u: Usage)
      modifies this`usageEmitted, this`ledger
      ensures usageEmitted == Plus(old(usageEmitted), u)
      ensures ledger == if hasBudget then Appended(old(ledger), Tokens(u), u.cost) else old(ledger)
    {
      usageEmitted := Plus(usageEmitted, u);
      AppendLedger(Tokens(u), u.cost);
    }

    // The final drain, the release of the permit, and the gap to the final usage. A settled run does nothing.
    method Settle(content: Bytes, final: Usage)
      requires Valid()
      modifies this
      ensures Valid() && settled && releases == 1
      ensures old(settled) ==> ledger == old(ledger) && State() == old(State())
      ensures !old(settled) ==> State() == DrainStep(old(State()), content)
      ensures !old(settled) ==> ledger == if hasBudget then Settled(Usages(lines, parse), final) else []
    {
      if settled { return; }
      DrainLifecycle(content);
      settled := true;
      releases := releases + 1;
      if hasBudget {
        var residual := Residual(final, usageEmitted);
        AppendLedger(Tokens(residual), residual.cost);
      }
    }
  }

  // The ledger entries of a settled run.
  function Settled(streamed: seq<Usage>, final: Usage): seq<LedgerEntry> {
    var residual := Residual(final, Total(streamed));
    Appended(Recorded([], streamed), Tokens(residual), residual.cost)
  }

  lemma {:induction false} UsagesConcat(a: seq<Bytes>, b: seq<Bytes>, parse: UsageParser)
    ensures Usages(a + b, parse) == Usages(a, parse) + Usages(b, parse)
  {
    if b == [] {
      assert a + b == a;
    } else {
      UsagesConcat(a, b[..|b| - 1], parse);
      assert (a + b)[..|a + b| - 1] == a + b[..|b| - 1];
    }
  }

  lemma OneMoreUsage(us: seq<Usage>, u: Usage)
    ensures Total(us + [u]) == Plus(Total(us), u)
    ensures Recorded([], us + [u]) == Appended(Recorded([], us), Tokens(u), u.cost)
  {
    assert (us + [u])[..|us|] == us;
  }

  // ----- what the ledger adds up to -----

  // The tokens of the payloads that leave no entry.
  function SkippedTokens(us: seq<Usage>): int {
    if us == [] then 0 else
      var u := us[|us| - 1];
      SkippedTokens(us[..|us| - 1]) + if Skipped(Tokens(u), u.cost) then Tokens(u) else 0
  }

  lemma LedgerAppended(ledger: seq<LedgerEntry>, tokens: int, cost: real)
    ensures LedgerTokens(Appended(ledger, tokens, cost)) ==
      LedgerTokens(ledger) + if Skipped(tokens, cost) then 0 else tokens
  {
    assert (ledger + [LedgerEntry(tokens, cost)])[..|ledger|] == ledger;
  }

  lemma {:induction false} StreamedLedger(us: seq<Usage>)
    ensures LedgerTokens(Recorded([], us)) == Tokens(Total(us)) - SkippedTokens(us)
    ensures SkippedTokens(us) <= 0
  {
    if us != [] {
      var init, u := us[..|us| - 1], us[|us| - 1];
      StreamedLedger(init);
      LedgerAppended(Recorded([], init), Tokens(u), u.cost);
    }
  }

  // However the lines were split between drains, a settled run has recorded, component by component, the
  // larger of the streamed and the final usage: exactly so when no payload of negative tokens was skipped.
  lemma SettledLedger(streamed: seq<Usage>, final: Usage)
    ensures var total, ledger := Total(streamed), Settled(streamed, final);
      && LedgerTokens(ledger) == TokensOfMax(total, final) - SkippedTokens(streamed)
      && (LedgerTokens(ledger) == TokensOfMax(total, final) <==> SkippedTokens(streamed) == 0)
  {
    var total := Total(streamed);
    var residual := Residual(final, total);
    StreamedLedger(streamed);
    LedgerAppended(Recorded([], streamed), Tokens(residual), residual.cost);
    assert Tokens(residual) >= 0;
  }

  // A correction of minus one token, and nothing at the end: the ledger reads one token, the larger usage none.
  lemma SkippedCorrection()
    ensures var streamed := [Usage(-1, 0, 0, 0, 0.0)];
      && LedgerTokens(Settled(streamed, NO_USAGE)) == 1
      && TokensOfMax(Total(streamed), NO_USAGE) == 0
  {
    hide LedgerTokens, Settled, Recorded;
    var streamed := [Usage(-1, 0, 0, 0, 0.0)];
    var none: seq<Usage> := [];
    assert streamed[..0] == none;
    assert Total(none) == NO_USAGE && SkippedTokens(none) == 0;
    assert Total(streamed) == Usage(-1, 0, 0, 0, 0.0);
    assert SkippedTokens(streamed) == -1;
    SettledLedger(streamed, NO_USAGE);
  }

  // In particular it is the final usage whenever the stream does not exceed it.
  lemma {:induction false} SettledLedgerIsFinal(streamed: seq<Usage>, final: Usage)
    requires forall i :: 0 <= i < |streamed| ==> Tokens(streamed[i]) >= 0
    requires var total := Total(streamed);
      total.input <= final.input && total.output <= final.output && total.cacheRead <= final.cacheRead
        && total.cacheWrite <= final.cacheWrite
    ensures LedgerTokens(Settled(streamed, final)) == Tokens(final)
  {
    SettledLedger(streamed, final);
    NothingSkipped(streamed);
  }

  lemma {:induction false} NothingSkipped(us: seq<Usage>)
    requires forall i :: 0 <= i < |us| ==> Tokens(us[i]) >= 0
    ensures SkippedTokens(us) == 0
  {
    if us != [] {
      NothingSkipped(us[..|us| - 1]);
    }
  }

  // ----- runs of drains -----

  function Drain(d: Drained, contents: seq<Bytes>): Drained {
    if contents == [] then d else DrainStep(Drain(d, contents[..|contents| - 1]), contents[|contents| - 1])
  }

  // The file only grows.
  ghost predicate Appending(contents: seq<Bytes>) {
    forall i, j :: 0 <= i < j < |contents| ==> contents[i] <= contents[j]
  }

  // A drain that finds an unfinished line grown too long, and nothing after it: the line is given up.
  ghost predicate GivesUp(before: Bytes, content: Bytes) {
    before < content && !HasNewline(content[|before|..]) && |Tail(content)| > MAX_LINE_BYTES
  }

  ghost predicate NoneGivenUp(contents: seq<Bytes>) {
    contents != [] ==>
      && NoneGivenUp(contents[..|contents| - 1])
      && !GivesUp(if |contents| == 1 then [] else contents[|contents| - 2], contents[|contents| - 1])
  }

  // Every complete line was handed on as it is, and the unfinished one is kept.
  ghost predicate Exact(d: Drained, content: Bytes) {
    d == Drained(|content|, Tail(content), CompleteLines(content))
  }

  // Some line was handed on without its beginning, or is about to be.
  ghost predicate Damaged(d: Drained, content: Bytes) {
    && d.offset == |content| && !HasNewline(d.remainder) && |d.lines| == |CompleteLines(content)|
    && (d.lines != CompleteLines(content) || |d.remainder| < |Tail(content)|)
  }

  // A drain of what was appended.
  lemma DrainOfMore(d: Drained, seen: Bytes, more: Bytes)
    requires d.offset == |seen| && more != []
    ensures DrainStep(d, seen + more)
      == if HasNewline(d.remainder + more)
         then Drained(|seen + more|, Tail(d.remainder + more), d.lines + CompleteLines(d.remainder + more))
         else Drained(|seen + more|, if |d.remainder + more| <= MAX_LINE_BYTES then d.remainder + more else [], d.lines)
  {
    hide HasNewline, Tail, CompleteLines;
    assert (seen + more)[|seen|..] == more;
  }

  lemma Unbroken(t: Bytes)
    requires !HasNewline(t)
    ensures CompleteLines(t) == [] && Tail(t) == t
  {
    FirstNewlineIs(t, |t|);
  }

  lemma DrainMore(seen: Bytes, content: Bytes)
    requires seen <= content && !GivesUp(seen, content)
    ensures Exact(DrainStep(Drained(|seen|, Tail(seen), CompleteLines(seen)), content), content)
  {
    hide Tail, CompleteLines, HasNewline;
    var more := content[|seen|..];
    assert content == seen + more;
    if more != [] {
      TailIsUnbroken(seen);
      Extend(seen, more);
      NoNewlineInPart(Tail(seen), more);
      DrainOfMore(Drained(|seen|, Tail(seen), CompleteLines(seen)), seen, more);
      hide DrainStep;
      if !HasNewline(Tail(seen) + more) {
        Unbroken(Tail(seen) + more);
        assert CompleteLines(seen) + [] == CompleteLines(seen);
      }
    } else {
      assert content == seen;
    }
  }

  lemma TailIsUnbroken(t: Bytes)
    ensures !HasNewline(Tail(t))
  {
    TailAfterLast(t);
  }

  lemma NoNewlineInPart(a: Bytes, b: Bytes)
    ensures HasNewline(a + b) <==> HasNewline(a) || HasNewline(b)
  {
    if !HasNewline(a + b) {
      forall i | 0 <= i < |a| ensures a[i] != NEWLINE { assert (a + b)[i] != NEWLINE; }
      forall i | 0 <= i < |b| ensures b[i] != NEWLINE { assert (a + b)[|a| + i] != NEWLINE; }
    }
  }

  lemma GivingUp(seen: Bytes, content: Bytes)
    requires GivesUp(seen, content)
    ensures Damaged(DrainStep(Drained(|seen|, Tail(seen), CompleteLines(seen)), content), content)
  {
    var more := content[|seen|..];
    assert content == seen + more;
    Extend(seen, more);
    TailIsUnbroken(seen);
    NoNewlineInPart(Tail(seen), more);
    assert CompleteLines(Tail(seen) + more) == [];
    assert CompleteLines(seen) + [] == CompleteLines(seen);
  }

  // The first line of what was left over and what was appended.
  lemma HeadLine(head: Bytes, more: Bytes)
    requires !HasNewline(head) && HasNewline(more)
    ensures var k := FirstNewline(more);
      && CompleteLines(head + more) == [head + more[..k]] + CompleteLines(more[k + 1..])
      && Tail(head + more) == Tail(more[k + 1..])
  {
    var k := FirstNewline(more);
    var line, rest := head + more[..k], more[k + 1..];
    assert head + more == line + [NEWLINE] + rest;
    FirstNewlineIs(line, |line|);
    LineThenRest(line, rest);
  }

  lemma DifferentLines(a: seq<Bytes>, x: Bytes, b: seq<Bytes>, y: Bytes, rest: seq<Bytes>)
    requires |a| == |b| && (a != b || |x| < |y|)
    ensures a + ([x] + rest) != b + ([y] + rest)
  {
    var p, q := a + ([x] + rest), b + ([y] + rest);
    if a != b {
      assert p[..|a|] == a && q[..|b|] == b;
    } else {
      assert p[|a|] == x && q[|b|] == y;
    }
  }

  lemma DamageStays(d: Drained, seen: Bytes, content: Bytes)
    requires Damaged(d, seen) && seen <= content
    ensures Damaged(DrainStep(d, content), content)
  {
    hide Tail, CompleteLines, HasNewline, Damaged, DrainStep;
    var more := content[|seen|..];
    assert content == seen + more;
    if more == [] {
      assert content == seen;
      NothingAppended(d, content);
    } else if HasNewline(more) {
      DamageWithLine(d, seen, more);
    } else {
      DamageWithout(d, seen, more);
    }
  }

  lemma NothingAppended(d: Drained, content: Bytes)
    requires Damaged(d, content)
    ensures DrainStep(d, content) == d
  {
    hide Tail, CompleteLines, HasNewline;
  }

  lemma DamageWithLine(d: Drained, seen: Bytes, more: Bytes)
    requires Damaged(d, seen) && HasNewline(more)
    ensures Damaged(DrainStep(d, seen + more), seen + more)
  {
    NothingUnbroken();
    NoNewlineInPart(d.remainder, more);
    var k := FirstNewline(more);
    assert k < |more|;
    hide CompleteLines, Tail, HasNewline, FirstNewline, DrainStep;
    TailIsUnbroken(seen);
    LineWhole(seen, more, k);
    DrainOfLine(d, seen, more, k);
    TailIsUnbroken(more[k + 1..]);
    var x, y, rest := d.remainder + more[..k], Tail(seen) + more[..k], CompleteLines(more[k + 1..]);
    DifferentLines(d.lines, x, CompleteLines(seen), y, rest);
  }

  lemma LineWhole(seen: Bytes, more: Bytes, k: nat)
    requires HasNewline(more) && k == FirstNewline(more) < |more|
    ensures CompleteLines(seen + more)
      == CompleteLines(seen) + ([Tail(seen) + more[..k]] + CompleteLines(more[k + 1..]))
  {
    hide CompleteLines, Tail, HasNewline, FirstNewline;
    Extend(seen, more);
    TailIsUnbroken(seen);
    HeadLine(Tail(seen), more);
  }

  lemma DrainOfLine(d: Drained, seen: Bytes, more: Bytes, k: nat)
    requires d.offset == |seen| && !HasNewline(d.remainder) && HasNewline(d.remainder + more)
    requires HasNewline(more) && k == FirstNewline(more) < |more|
    ensures DrainStep(d, seen + more)
      == Drained(|seen + more|, Tail(more[k + 1..]),
                 d.lines + ([d.remainder + more[..k]] + CompleteLines(more[k + 1..])))
  {
    hide CompleteLines, Tail, HasNewline, FirstNewline;
    DrainOfMore(d, seen, more);
    hide DrainStep;
    HeadLine(d.remainder, more);
  }

  lemma DamageWithout(d: Drained, seen: Bytes, more: Bytes)
    requires Damaged(d, seen) && !HasNewline(more) && more != []
    ensures Damaged(DrainStep(d, seen + more), seen + more)
  {
    NothingUnbroken();
    hide Tail, CompleteLines, HasNewline, DrainStep, FirstNewline;
    TailGrows(seen, more);
    NoNewlineInPart(d.remainder, more);
    DrainOfMore(d, seen, more);
  }

  lemma TailGrows(seen: Bytes, more: Bytes)
    requires !HasNewline(more)
    ensures CompleteLines(seen + more) == CompleteLines(seen) && Tail(seen + more) == Tail(seen) + more
  {
    hide Tail, CompleteLines, HasNewline, FirstNewline;
    Extend(seen, more);
    TailIsUnbroken(seen);
    NoNewlineInPart(Tail(seen), more);
    Unbroken(Tail(seen) + more);
    assert CompleteLines(seen) + [] == CompleteLines(seen);
  }

  lemma NothingUnbroken()
    ensures !HasNewline([])
  {}

  lemma {:induction false} DrainsAgree(contents: seq<Bytes>)
    requires contents != [] && Appending(contents)
    ensures var content, d := contents[|contents| - 1], Drain(NOTHING_DRAINED, contents);
      if NoneGivenUp(contents) then Exact(d, content) else Damaged(d, content)
  {
    hide DrainStep, GivesUp, Exact, Damaged;
    var init, content := contents[..|contents| - 1], contents[|contents| - 1];
    if init == [] {
      NothingRead();
      assert Drain(NOTHING_DRAINED, init) == NOTHING_DRAINED && NoneGivenUp(init);
      if GivesUp([], content) { GivingUp([], content); } else { DrainMore([], content); }
    } else {
      DrainsAgree(init);
      var seen := contents[|contents| - 2];
      assert init[|init| - 1] == seen <= content;
      if !NoneGivenUp(init) {
        DamageStays(Drain(NOTHING_DRAINED, init), seen, content);
      } else {
        ExactIs(Drain(NOTHING_DRAINED, init), seen);
        if GivesUp(seen, content) { GivingUp(seen, content); } else { DrainMore(seen, content); }
      }
    }
  }

  lemma NothingRead()
    ensures NOTHING_DRAINED == Drained(0, Tail([]), CompleteLines([]))
  {}

  lemma ExactIs(d: Drained, content: Bytes)
    requires Exact(d, content)
    ensures d == Drained(|content|, Tail(content), CompleteLines(content))
  {}

  // However the lines are split between live drains and the final one, each is handed on exactly once and whole,
  // exactly when no drain finds an unfinished line grown too long.
  lemma DrainsAreOnce(contents: seq<Bytes>)
    requires contents != [] && Appending(contents)
    ensures Exact(Drain(NOTHING_DRAINED, contents), contents[|contents| - 1]) <==> NoneGivenUp(contents)
  {
    DrainsAgree(contents);
  }

  // What a writer can see to: every line of the file is short, and so is its unfinished rest.
  ghost predicate ShortLines(whole: Bytes) {
    |Tail(whole)| <= MAX_LINE_BYTES && forall line :: line in CompleteLines(whole) ==> |line| <= MAX_LINE_BYTES
  }

  // The unfinished line of any part is the beginning of a line of the whole.
  lemma ShortTail(content: Bytes, whole: Bytes)
    requires content <= whole && ShortLines(whole)
    ensures |Tail(content)| <= MAX_LINE_BYTES
  {
    hide Tail, CompleteLines, HasNewline;
    var more := whole[|content|..];
    assert whole == content + more;
    if HasNewline(more) {
      var k := FirstNewlineOf(more);
      LineWhole(content, more, k);
      assert Tail(content) + more[..k] in CompleteLines(whole);
    } else {
      TailGrows(content, more);
    }
  }

  lemma FirstNewlineOf(t: Bytes) returns (k: nat)
    requires HasNewline(t)
    ensures k == FirstNewline(t) < |t|
  {
    k := FirstNewline(t);
  }

  // Then no drain gives a line up, whenever the drains happen.
  lemma {:induction false} ShortLinesAreKept(contents: seq<Bytes>, whole: Bytes)
    requires ShortLines(whole) && forall i :: 0 <= i < |contents| ==> contents[i] <= whole
    ensures NoneGivenUp(contents)
  {
    hide ShortLines, Tail, HasNewline;
    if contents != [] {
      ShortLinesAreKept(contents[..|contents| - 1], whole);
      ShortTail(contents[|contents| - 1], whole);
    }
  }

  // A run drained at any moments and settled on the whole file records, component by component, the larger of
  // what the file streamed and the final usage.
  lemma LedgerOfRun(contents: seq<Bytes>, parse: UsageParser, final: Usage)
    requires contents != [] && Appending(contents) && NoneGivenUp(contents)
    ensures var streamed := Usages(CompleteLines(contents[|contents| - 1]), parse);
      && Usages(Drain(NOTHING_DRAINED, contents).lines, parse) == streamed
      && (SkippedTokens(streamed) == 0 <==>
            LedgerTokens(Settled(Usages(Drain(NOTHING_DRAINED, contents).lines, parse), final))
              == TokensOfMax(Total(streamed), final))
  {
    DrainsAreOnce(contents);
    SettledLedger(Usages(CompleteLines(contents[|contents| - 1]), parse), final);
  }

  // ----- drains and entries, told by the bytes and the numbers -----

  // The payloads are those of the lines that have one, in order.
  lemma {:induction false} UsagesAreChosen(lines: seq<Bytes>, parse: UsageParser) returns (at: seq<nat>)
    ensures Chosen(lines, (line: Bytes) => parse(line).Some?, at) && |Usages(lines, parse)| == |at|
    ensures forall i :: 0 <= i < |at| ==> at[i] < |lines| && parse(lines[at[i]]) == Some(Usages(lines, parse)[i])
  {
    var keep := (line: Bytes) => parse(line).Some?;
    if lines == [] {
      at := [];
    } else {
      var init, last := lines[..|lines| - 1], lines[|lines| - 1];
      at := UsagesAreChosen(init, parse);
      ChosenSnoc(init, keep, at, last);
      assert lines == init + [last];
      at := at + if keep(last) then [|init|] else [];
    }
  }

  // Sums from the front, component by component.
  ghost function Added(us: seq<Usage>, part: Usage -> real): real {
    if us == [] then 0.0 else part(us[0]) + Added(us[1..], part)
  }

  lemma {:induction false} AddedSnoc(us: seq<Usage>, u: Usage, part: Usage -> real)
    ensures Added(us + [u], part) == Added(us, part) + part(u)
  {
    if us == [] {
      assert ([] + [u])[1..] == [];
    } else {
      AddedSnoc(us[1..], u, part);
      assert (us + [u])[1..] == us[1..] + [u];
    }
  }

  lemma {:induction false} TotalIsAdded(us: seq<Usage>)
    ensures Total(us).input as real == Added(us, (u: Usage) => u.input as real)
    ensures Total(us).output as real == Added(us, (u: Usage) => u.output as real)
    ensures Total(us).cacheRead as real == Added(us, (u: Usage) => u.cacheRead as real)
    ensures Total(us).cacheWrite as real == Added(us, (u: Usage) => u.cacheWrite as real)
    ensures Total(us).cost == Added(us, (u: Usage) => u.cost)
  {
    if us != [] {
      var init, last := us[..|us| - 1], us[|us| - 1];
      TotalIsAdded(init);
      assert us == init + [last];
      AddedSnoc(init, last, (u: Usage) => u.input as real);
      AddedSnoc(init, last, (u: Usage) => u.output as real);
      AddedSnoc(init, last, (u: Usage) => u.cacheRead as real);
      AddedSnoc(init, last, (u: Usage) => u.cacheWrite as real);
      AddedSnoc(init, last, (u: Usage) => u.cost);
    }
  }

  ghost predicate IsEntry(e: LedgerEntry, u: Usage) {
    e.tokens == u.input + u.output + u.cacheRead + u.cacheWrite && e.cost == u.cost
  }

  ghost predicate Counts(u: Usage) {
    u.input + u.output + u.cacheRead + u.cacheWrite > 0 || u.cost > 0.0
  }

  // Every payload with a token or a cost has its entry, in order.
  lemma {:induction false} LedgerIsChosen(us: seq<Usage>) returns (at: seq<nat>)
    ensures Chosen(us, (u: Usage) => Counts(u), at) && |Recorded([], us)| == |at|
    ensures forall i :: 0 <= i < |at| ==> at[i] < |us| && IsEntry(Recorded([], us)[i], us[at[i]])
  {
    var keep := (u: Usage) => Counts(u);
    if us == [] {
      at := [];
    } else {
      var init, last := us[..|us| - 1], us[|us| - 1];
      at := LedgerIsChosen(init);
      ChosenSnoc(init, keep, at, last);
      assert us == init + [last];
      at := at + if keep(last) then [|init|] else [];
    }
  }

  // By how much a is above b.
  ghost function Above(a: int, b: int): int {
    if a > b then a - b else 0
  }

  // A settled run has one more entry when the final usage is anywhere above the total, with what it is above.
  lemma SettledAddsGap(streamed: seq<Usage>, final: Usage) returns (gap: Usage)
    ensures var total := Total(streamed);
      && gap.input == Above(final.input, total.input) && gap.output == Above(final.output, total.output)
      && gap.cacheRead == Above(final.cacheRead, total.cacheRead)
      && gap.cacheWrite == Above(final.cacheWrite, total.cacheWrite)
      && gap.cost == if final.cost > total.cost then final.cost - total.cost else 0.0
    ensures if Counts(gap)
            then exists e :: IsEntry(e, gap) && Settled(streamed, final) == Recorded([], streamed) + [e]
            else Settled(streamed, final) == Recorded([], streamed)
  {
    gap := Residual(final, Total(streamed));
    assert IsEntry(LedgerEntry(Tokens(gap), gap.cost), gap);
  }

  // A drain splits what was left over and what is new; a rest of more than 64 KiB is given up unless a line came
  // before it.
  lemma DrainIsExact(d: Drained, content: Bytes) returns (lines: seq<Bytes>, rest: Bytes)
    ensures var e, shrunk := DrainStep(d, content), |content| < d.offset;
      && e.offset == |content| && e.lines == d.lines + lines
      && (|content| == d.offset ==> e == d && lines == [])
      && (|content| != d.offset && !(shrunk && content == []) ==>
            && IsSplit(if shrunk then content else d.remainder + content[d.offset..], lines, rest)
            && e.remainder == if lines == [] && |rest| > 65536 then [] else rest)
      && (shrunk && content == [] ==> e.remainder == [] && lines == [])
  {
    var shrunk := |content| < d.offset;
    var combined := if shrunk then content else d.remainder + content[d.offset..];
    if |content| == d.offset || (shrunk && content == []) {
      lines, rest := [], [];
      assert d.lines + [] == d.lines;
    } else {
      lines, rest := CompleteLines(combined), Tail(combined);
      LinesAreSplit(combined);
      assert [] + content[0..] == content;
      if !HasNewline(combined) { assert d.lines + [] == d.lines; }
    }
  }
}
