// The execution trace recorder, its operation handles and sealing (src/audit/trace.ts).
module TraceRecorder {
  import opened Basics
  import opened Text
  import opened Json
  import opened TraceSize

  const MAX_IDENTIFIER_BYTES := 1_024
  const MAX_PHASE_BYTES := 1_024
  const MAX_ERROR_BYTES := 8 * 1024
  const MAX_RECORDED_OPERATIONS := 2_048
  const MAX_PHASES := 512

  // ----- truncation -----

  const SUFFIX: Text := [0x2026] + Chars("[truncated]")

  lemma SuffixBytes()
    ensures Utf8Bytes(SUFFIX) == 14
  {
    PlainBytes(Chars("[truncated]"));
    assert SUFFIX[1..] == Chars("[truncated]");
  }

  // The longest prefix, in code units, within the room; counted from k on.
  function Kept(t: Text, room: nat, k: nat): (n: nat)
    requires k <= |t|
    ensures k <= n <= |t|
    decreases |t| - k
  {
    if k < |t| && Utf8Bytes(t[..k + 1]) <= room then Kept(t, room, k + 1) else k
  }

  function Truncated(t: Text, maxBytes: nat): Text {
    if Utf8Bytes(t) <= maxBytes then t
    else t[..Kept(t, if maxBytes < Utf8Bytes(SUFFIX) then 0 else maxBytes - Utf8Bytes(SUFFIX), 0)] + SUFFIX
  }

  // A longer prefix takes more bytes, even when it ends inside a surrogate pair.
  lemma {:induction false} PrefixGrows(t: Text, i: nat)
    requires i < |t|
    ensures Utf8Bytes(t[..i]) < Utf8Bytes(t[..i + 1])
  {
    if i == 0 {
      assert t[..1][1..] == [];
    } else if StartsWithPair(t) {
      if i == 1 {
        assert t[..1][1..] == [] && t[..2][2..] == [];
      } else {
        PrefixGrows(t[2..], i - 2);
        assert t[..i][2..] == t[2..][..i - 2] && t[..i + 1][2..] == t[2..][..i - 1];
      }
    } else {
      PrefixGrows(t[1..], i - 1);
      assert t[..i][1..] == t[1..][..i - 1] && t[..i + 1][1..] == t[1..][..i];
    }
  }

  lemma {:induction false} PrefixMono(t: Text, i: nat, j: nat)
    requires i <= j <= |t|
    ensures Utf8Bytes(t[..i]) <= Utf8Bytes(t[..j])
  {
    if i < j {
      PrefixMono(t, i, j - 1);
      PrefixGrows(t, j - 1);
    }
  }

  // A prefix that fits while the next one does not is the longest.
  lemma {:induction false} KeptIsLast(t: Text, room: nat, k: nat, n: nat)
    requires k <= n <= |t| && Utf8Bytes(t[..n]) <= room
    requires n < |t| ==> Utf8Bytes(t[..n + 1]) > room
    ensures Kept(t, room, k) == n
    decreases n - k
  {
    if k < n {
      PrefixMono(t, k + 1, n);
      KeptIsLast(t, room, k + 1, n);
    }
  }

  method TruncateUtf8(value: Text, maxBytes: nat) returns (r: Text)
    ensures r == Truncated(value, maxBytes)
  {
    hide Utf8Bytes;
    if Utf8Bytes(value) <= maxBytes {
      return value;
    }
    var available := if maxBytes < Utf8Bytes(SUFFIX) then 0 else maxBytes - Utf8Bytes(SUFFIX);
    var low, high := 0, |value|;
    EmptyBytes(value);
    while low < high
      invariant 0 <= low <= high <= |value|
      invariant Utf8Bytes(value[..low]) <= available
      invariant high < |value| ==> Utf8Bytes(value[..high + 1]) > available
    {
      var middle := (low + high + 1) / 2;
      if Utf8Bytes(value[..middle]) <= available {
        low := middle;
      } else {
        high := middle - 1;
      }
    }
    KeptIsLast(value, available, 0, low);
    r := value[..low] + SUFFIX;
  }

  lemma EmptyBytes(t: Text)
    ensures Utf8Bytes(t[..0]) == 0
  {}

  lemma {:induction false} KeptFits(t: Text, room: nat, k: nat)
    requires k <= |t| && Utf8Bytes(t[..k]) <= room
    ensures var n := Kept(t, room, k);
      Utf8Bytes(t[..n]) <= room && forall m :: n < m <= |t| ==> Utf8Bytes(t[..m]) > room
    decreases |t| - k
  {
    if k < |t| && Utf8Bytes(t[..k + 1]) <= room {
      KeptFits(t, room, k + 1);
    } else {
      forall m | k < m <= |t| ensures Utf8Bytes(t[..m]) > room {
        PrefixMono(t, k + 1, m);
      }
    }
  }

  // A truncated text is within its bound exactly when nothing was cut or the bound has room for the suffix.
  lemma TruncatedFits(t: Text, maxBytes: nat)
    ensures Utf8Bytes(Truncated(t, maxBytes)) <= maxBytes <==> Utf8Bytes(t) <= maxBytes || 14 <= maxBytes
  {
    SuffixBytes();
    if Utf8Bytes(t) > maxBytes {
      var room := if maxBytes < 14 then 0 else maxBytes - 14;
      EmptyBytes(t);
      KeptFits(t, room, 0);
      SuffixSeam(t[..Kept(t, room, 0)]);
    }
  }

  // r is t within the bound: t itself when it fits, and otherwise its longest prefix with which "[truncated]" behind an
  // ellipsis still fits, or just that.
  ghost predicate IsCutTo(t: Text, maxBytes: nat, r: Text) {
    if Utf8Bytes(t) <= maxBytes then r == t
    else exists n: nat, mark: Text :: IsCutAt(t, maxBytes, r, n, mark)
  }

  ghost predicate IsCutAt(t: Text, maxBytes: nat, r: Text, n: nat, mark: Text) {
    && n <= |t| && r == t[..n] + [0x2026] + mark && Letters(mark, "[truncated]")
    && (n == 0 || Utf8Bytes(t[..n]) + 14 <= maxBytes)
    && forall m :: n < m <= |t| ==> Utf8Bytes(t[..m]) + 14 > maxBytes
  }

  lemma TruncatedIsCut(t: Text, maxBytes: nat)
    ensures IsCutTo(t, maxBytes, Truncated(t, maxBytes))
  {
    if Utf8Bytes(t) > maxBytes {
      var room := if maxBytes < 14 then 0 else maxBytes - 14;
      var n, mark := Kept(t, room, 0), Chars("[truncated]");
      KeptIsLongest(t, maxBytes, room);
      SuffixIsMark(t[..n]);
      hide Kept, Letters, Utf8Bytes, Chars;
      assert IsCutAt(t, maxBytes, Truncated(t, maxBytes), n, mark);
    }
  }

  lemma SuffixIsMark(kept: Text)
    ensures kept + SUFFIX == kept + [0x2026] + Chars("[truncated]") && Letters(Chars("[truncated]"), "[truncated]")
    ensures Utf8Bytes(SUFFIX) == 14
  {
    SuffixBytes();
    assert SUFFIX == [0x2026] + Chars("[truncated]");
  }

  lemma KeptIsLongest(t: Text, maxBytes: nat, room: nat)
    requires room == (if maxBytes < 14 then 0 else maxBytes - 14) && Utf8Bytes(t) > maxBytes
    ensures var n := Kept(t, room, 0);
      && n <= |t| && (n == 0 || Utf8Bytes(t[..n]) + 14 <= maxBytes)
      && forall m :: n < m <= |t| ==> Utf8Bytes(t[..m]) + 14 > maxBytes
  {
    EmptyBytes(t);
    PrefixBytes(t);
    KeptFits(t, room, 0);
    hide Utf8Bytes;
  }

  lemma PrefixBytes(t: Text)
    ensures forall m :: 0 < m <= |t| ==> Utf8Bytes(t[..m]) > 0
  {
    forall m | 0 < m <= |t| ensures Utf8Bytes(t[..m]) > 0 {
      Utf8AtLeastUnits(t[..m]);
    }
  }

  lemma SuffixSeam(t: Text)
    ensures Utf8Bytes(t + SUFFIX) == Utf8Bytes(t) + Utf8Bytes(SUFFIX)
  {
    Utf8Concat(t, SUFFIX);
  }

  // ----- operations -----

  datatype Tally = Tally(dropped: nat, truncated: nat, redacted: nat)

  datatype Sanitized<T> = Sanitized(value: T, tally: Tally)

  // The fields of a mutable operation at one moment.
  datatype OpState = OpState(
    provider: Option<Text>, action: Option<Text>, risk: Option<Risk>, effect: Option<Effect>,
    args: Sanitized<seq<Field>>, outcome: Option<Outcome>, failureStage: Option<Stage>,
    error: Option<Sanitized<Text>>, result: Option<Sanitized<Json>>, droppedResultValues: nat)

  function SanitizeText(t: Text, maxBytes: nat): Sanitized<Text> {
    var bounded := Truncated(t, maxBytes);
    Sanitized(bounded, Tally(0, if bounded == t then 0 else 1, 0))
  }

  function FailureMessage(stage: Stage, outcome: Outcome, cause: Option<Text>): Text {
    if outcome == TimedOut then Chars("Call timed out")
    else if outcome == Aborted then Chars("Call aborted")
    else
      var summary := Chars("Call failed during ") + StageText(stage);
      if cause.Some? && cause.value != [] then summary + Chars(": ") + cause.value else summary
  }

  predicate IsBash(projectionRef: Text) { projectionRef == Chars("pi.bash") }

  // A result that could not be projected only leaves a count behind.
  function WithResult(s: OpState, hasResult: bool, projected: Option<Sanitized<Json>>): OpState {
    if projected.Some? then s.(result := projected)
    else if hasResult then s.(droppedResultValues := s.droppedResultValues + 1)
    else s
  }

  function Succeeding(s: OpState, hasResult: bool, projected: Option<Sanitized<Json>>): OpState {
    WithResult(s, hasResult, projected).(outcome := Some(Succeeded))
  }

  function Failing(s: OpState, projectionRef: Text, stage: Stage, cause: Option<Text>, outcome: Outcome,
                   hasResult: bool, projected: Option<Sanitized<Json>>): OpState
  {
    var told := if IsBash(projectionRef) && stage == Invoke && outcome == Failed then cause else None;
    var failed := s.(failureStage := Some(stage), outcome := Some(outcome),
                     error := Some(SanitizeText(FailureMessage(stage, outcome, told), MAX_ERROR_BYTES)));
    WithResult(failed, hasResult, projected)
  }

  // What sealing makes of an operation.
  function FinishedOutcome(s: OpState, run: Outcome): Outcome {
    if s.outcome.None? then (if run == TimedOut then TimedOut else if run == Aborted then Aborted else Failed)
    else if s.outcome.value == Aborted && run == TimedOut then TimedOut
    else s.outcome.value
  }

  function Finished(s: OpState, projectionRef: Text, run: Outcome): OpState {
    var outcome := FinishedOutcome(s, run);
    var stage := if s.outcome.None? && s.failureStage.None? then Some(Invoke) else s.failureStage;
    var error :=
      if outcome == Succeeded || (IsBash(projectionRef) && outcome == Failed && s.error.Some?) then s.error
      else Some(SanitizeText(FailureMessage(if stage.Some? then stage.value else Invoke, outcome, None),
                             MAX_ERROR_BYTES));
    s.(outcome := Some(outcome), failureStage := stage, error := error)
  }

  // After sealing every operation has an outcome, a timed-out run leaves none aborted, everything that did not
  // succeed carries an error, and sealing again changes nothing.
  lemma FinishedFacts(s: OpState, projectionRef: Text, run: Outcome)
    ensures var f := Finished(s, projectionRef, run);
      && f.outcome.Some?
      && (run == TimedOut ==> f.outcome != Some(Aborted))
      && (f.outcome != Some(Succeeded) ==> f.error.Some?)
      && (f.outcome == Some(Succeeded) <==> s.outcome == Some(Succeeded))
      && Finished(f, projectionRef, run) == f
  {
    hide SanitizeText, FailureMessage;
  }

  // The outcome a sealed operation has: its own, but for one left open, which takes that of a timed-out or aborted run
  // and fails otherwise, and an aborted one of a run that timed out.
  lemma SealedOutcome(s: OpState, projectionRef: Text, run: Outcome)
    ensures var f := Finished(s, projectionRef, run);
      && (s.outcome.None? ==> f.outcome == Some(if run == TimedOut || run == Aborted then run else Failed))
      && (s.outcome.None? && s.failureStage.None? ==> f.failureStage == Some(Invoke))
      && (s.failureStage.Some? || s.outcome.Some? ==> f.failureStage == s.failureStage)
      && (s.outcome == Some(Aborted) ==> f.outcome == Some(if run == TimedOut then TimedOut else Aborted))
      && (s.outcome.Some? && s.outcome != Some(Aborted) ==> f.outcome == s.outcome)
      && f.provider == s.provider && f.action == s.action && f.risk == s.risk && f.effect == s.effect
      && f.args == s.args && f.result == s.result && f.droppedResultValues == s.droppedResultValues
  {
    hide SanitizeText, FailureMessage;
  }

  // The error a sealed operation carries, unless it succeeded or is a failed bash call that brought its own.
  lemma SealedError(s: OpState, projectionRef: Text, run: Outcome)
    ensures var f := Finished(s, projectionRef, run);
      var stage := if f.failureStage.Some? then f.failureStage.value else Invoke;
      var itsOwn := Letters(projectionRef, "pi.bash") && f.outcome == Some(Failed) && s.error.Some?;
      && (f.outcome == Some(Succeeded) || itsOwn ==> f.error == s.error)
      && (f.outcome != Some(Succeeded) && !itsOwn ==>
            f.error.Some? && IsMessage(f.error.value, stage, f.outcome.value, None))
  {
    BashIs(projectionRef);
    var f := Finished(s, projectionRef, run);
    MessageIs(if f.failureStage.Some? then f.failureStage.value else Invoke, f.outcome.value, None);
    hide SanitizeText, FailureMessage, IsMessage, IsBash;
  }

  lemma BashIs(t: Text)
    ensures IsBash(t) <==> Letters(t, "pi.bash")
  {
    CharsAreLetters("pi.bash");
    if Letters(t, "pi.bash") {
      assert t == Chars("pi.bash");
    }
  }

  // The text of a failure, bounded, and marked as truncated when it was cut.
  ghost predicate IsMessage(e: Sanitized<Text>, stage: Stage, outcome: Outcome, cause: Option<Text>) {
    exists whole :: Tells(whole, stage, outcome, cause) && IsCutTo(whole, MAX_ERROR_BYTES, e.value)
                    && e.tally == Tally(0, if e.value == whole then 0 else 1, 0)
  }

  // What it tells: the time-out or the abort, or the stage and then the cause when there is one.
  ghost predicate Tells(t: Text, stage: Stage, outcome: Outcome, cause: Option<Text>) {
    match outcome
    case TimedOut => Letters(t, "Call timed out")
    case Aborted => Letters(t, "Call aborted")
    case _ =>
      if cause.None? || cause.value == [] then Letters(t, "Call failed during " + StageLetters(stage))
      else exists head :: Letters(head, "Call failed during " + StageLetters(stage) + ": ") && t == head + cause.value
  }

  ghost function StageLetters(s: Stage): string {
    match s
    case Resolve => "resolve"
    case Prepare => "prepare"
    case Validate => "validate"
    case Approve => "approve"
    case Invoke => "invoke"
    case Guard => "guard"
  }

  lemma StageIs(s: Stage)
    ensures Letters(StageText(s), StageLetters(s))
  {}

  lemma LettersJoin(a: Text, s: string, b: Text, t: string)
    requires Letters(a, s) && Letters(b, t)
    ensures Letters(a + b, s + t)
  {}

  lemma MessageTells(stage: Stage, outcome: Outcome, cause: Option<Text>)
    ensures Tells(FailureMessage(stage, outcome, cause), stage, outcome, cause)
  {
    CharsAreLetters("Call timed out");
    CharsAreLetters("Call aborted");
    CharsAreLetters("Call failed during ");
    CharsAreLetters(": ");
    StageIs(stage);
    LettersJoin(Chars("Call failed during "), "Call failed during ", StageText(stage), StageLetters(stage));
    var summary := Chars("Call failed during ") + StageText(stage);
    LettersJoin(summary, "Call failed during " + StageLetters(stage), Chars(": "), ": ");
    hide Letters, StageText, StageLetters, Chars;
    if outcome != TimedOut && outcome != Aborted && cause.Some? && cause.value != [] {
      assert summary + Chars(": ") + cause.value == (summary + Chars(": ")) + cause.value;
    }
  }

  lemma MessageIs(stage: Stage, outcome: Outcome, cause: Option<Text>)
    ensures IsMessage(SanitizeText(FailureMessage(stage, outcome, cause), MAX_ERROR_BYTES), stage, outcome, cause)
  {
    MessageTells(stage, outcome, cause);
    TruncatedIsCut(FailureMessage(stage, outcome, cause), MAX_ERROR_BYTES);
    hide Tells, IsCutTo, FailureMessage, Truncated;
  }

  // What a failure records: its stage and outcome, and the cause in the message of a failed bash invocation only.
  lemma FailureIsRecorded(s: OpState, projectionRef: Text, stage: Stage, cause: Option<Text>, outcome: Outcome,
                          hasResult: bool, projected: Option<Sanitized<Json>>)
    ensures var f := Failing(s, projectionRef, stage, cause, outcome, hasResult, projected);
      var told := if Letters(projectionRef, "pi.bash") && stage == Invoke && outcome == Failed then cause else None;
      && f.outcome == Some(outcome) && f.failureStage == Some(stage)
      && f.error.Some? && IsMessage(f.error.value, stage, outcome, told)
      && f.provider == s.provider && f.action == s.action && f.risk == s.risk
      && f.effect == s.effect && f.args == s.args
  {
    BashIs(projectionRef);
    MessageIs(stage, outcome, if IsBash(projectionRef) && stage == Invoke && outcome == Failed then cause else None);
    hide SanitizeText, FailureMessage, IsMessage, IsBash;
  }

  // What a result leaves behind: itself when it can be shown, a count when it cannot, and nothing when there is none.
  lemma ResultIsRecorded(s: OpState, hasResult: bool, projected: Option<Sanitized<Json>>)
    ensures var f := Succeeding(s, hasResult, projected);
      && f.outcome == Some(Succeeded) && f.error == s.error && f.failureStage == s.failureStage && f.args == s.args
      && f.result == (if projected.None? then s.result else projected)
      && f.droppedResultValues - s.droppedResultValues == if hasResult && projected.None? then 1 else 0
  {}

  class MutableOperation {
    const sequence: nat
    const ref: Text
    const projectionRef: Text
    var provider: Option<Text>
    var action: Option<Text>
    var risk: Option<Risk>
    var effect: Option<Effect>
    var args: Sanitized<seq<Field>>
    var outcome: Option<Outcome>
    var failureStage: Option<Stage>
    var error: Option<Sanitized<Text>>
    var result: Option<Sanitized<Json>>
    var droppedResultValues: nat

    constructor (sequence: nat, ref: Text, projectionRef: Text, provider: Option<Text>, action: Option<Text>,
                 args: Sanitized<seq<Field>>)
      ensures this.sequence == sequence && this.ref == ref && this.projectionRef == projectionRef
      ensures Snapshot() == OpState(provider, action, None, None, args, None, None, None, None, 0)
    {
      this.sequence, this.ref, this.projectionRef := sequence, ref, projectionRef;
      this.provider, this.action, this.args := provider, action, args;
      risk, effect, outcome, failureStage, error, result, droppedResultValues := None, None, None, None, None, None, 0;
    }

    function Snapshot(): OpState
      reads this
    {
      OpState(provider, action, risk, effect, args, outcome, failureStage, error, result, droppedResultValues)
    }

    method SetResult(hasResult: bool, projected: Option<Sanitized<Json>>)
      modifies this
      ensures Snapshot() == WithResult(old(Snapshot()), hasResult, projected)
    {
      if projected.Some? {
        result := projected;
      } else if hasResult {
        droppedResultValues := droppedResultValues + 1;
      }
    }

    method SetError(message: Text)
      modifies this
      ensures Snapshot() == old(Snapshot()).(error := Some(SanitizeText(message, MAX_ERROR_BYTES)))
    {
      var bounded := TruncateUtf8(message, MAX_ERROR_BYTES);
      error := Some(Sanitized(bounded, Tally(0, if bounded == message then 0 else 1, 0)));
    }

    // One round of the loop in seal.
    method Finish(run: Outcome)
      modifies this
      ensures Snapshot() == Finished(old(Snapshot()), projectionRef, run)
    {
      hide SanitizeText, FailureMessage;
      if outcome.None? {
        outcome := Some(if run == TimedOut then TimedOut else if run == Aborted then Aborted else Failed);
        if failureStage.None? {
          failureStage := Some(Invoke);
        }
      } else if outcome.value == Aborted && run == TimedOut {
        outcome := Some(TimedOut);
      }
      if outcome.value != Succeeded {
        var preserveBashCause := IsBash(projectionRef) && outcome.value == Failed && error.Some?;
        if !preserveBashCause {
          SetError(FailureMessage(if failureStage.Some? then failureStage.value else Invoke, outcome.value, None));
        }
      }
    }
  }

  // ----- the sealed trace -----

  function Add(c: Counts, t: Tally): Counts {
    c.(droppedValues := c.droppedValues + t.dropped, truncatedValues := c.truncatedValues + t.truncated,
       redactedValues := c.redactedValues + t.redacted)
  }

  function AddOperation(c: Counts, s: OpState): Counts {
    var a := Add(c, s.args.tally);
    var b := a.(droppedValues := a.droppedValues + s.droppedResultValues);
    var e := if s.error.Some? then Add(b, s.error.value.tally) else b;
    if s.result.Some? then Add(e, s.result.value.tally) else e
  }

  function AddOperations(c: Counts, states: seq<OpState>): Counts {
    if states == [] then c else AddOperation(AddOperations(c, states[..|states| - 1]), states[|states| - 1])
  }

  function AddPhases(c: Counts, phases: seq<Text>): Counts {
    if phases == [] then c else
      var before := AddPhases(c, phases[..|phases| - 1]);
      if Truncated(phases[|phases| - 1], MAX_PHASE_BYTES) == phases[|phases| - 1] then before
      else before.(truncatedValues := before.truncatedValues + 1)
  }

  function BoundedPhases(phases: seq<Text>): (r: seq<Text>)
    ensures |r| == |phases|
  {
    seq(|phases|, i requires 0 <= i < |phases| => Truncated(phases[i], MAX_PHASE_BYTES))
  }

  function PhaseCounts(c: Counts, phases: seq<Text>): Counts {
    var first := FirstOf(phases, MAX_PHASES);
    var counted := AddPhases(c, first);
    if |phases| > |first| then
      counted.(droppedValues := counted.droppedValues + (|phases| - |first|),
               truncatedValues := counted.truncatedValues + 1)
    else counted
  }

  function RunError(run: Outcome): (r: Option<Text>)
    ensures r.Some? ==> |r.value| <= 20
  {
    match run
    case Succeeded => None
    case TimedOut => Some(Chars("Execution timed out"))
    case Aborted => Some(Chars("Execution aborted"))
    case Failed => Some(Chars("Execution failed"))
  }

  function Sealed(sequence: nat, ref: Text, s: OpState): Operation
    requires s.outcome.Some?
  {
    Operation(sequence, ref, s.provider, s.action, s.risk, s.effect, s.args.value, s.outcome.value, s.failureStage,
              if s.error.Some? then Some(s.error.value.value) else None,
              if s.result.Some? then Some(s.result.value.value) else None)
  }

  ghost function SealedAll(ops: seq<MutableOperation>, states: seq<OpState>): (r: seq<Operation>)
    requires |states| == |ops| && forall i :: 0 <= i < |states| ==> states[i].outcome.Some?
    ensures |r| == |ops|
  {
    seq(|ops|, i requires 0 <= i < |ops| => Sealed(ops[i].sequence, ops[i].ref, states[i]))
  }

  // The trace before it is cut down.
  ghost function Whole(run: Outcome, phases: seq<Text>, ops: seq<MutableOperation>, states: seq<OpState>,
                       truncated: nat, dropped: nat): Trace
    requires |states| == |ops| && forall i :: 0 <= i < |states| ==> states[i].outcome.Some?
  {
    Trace(run, BoundedPhases(FirstOf(phases, MAX_PHASES)), SealedAll(ops, states),
          PhaseCounts(AddOperations(Counts(0, truncated, 0, dropped), states), phases), RunError(run))
  }

  method BoundPhases(phases: seq<Text>, c: Counts) returns (bounded: seq<Text>, counts: Counts)
    ensures bounded == BoundedPhases(FirstOf(phases, MAX_PHASES)) && counts == PhaseCounts(c, phases)
  {
    var first := FirstOf(phases, MAX_PHASES);
    bounded, counts := [], c;
    for i := 0 to |first|
      invariant bounded == BoundedPhases(first)[..i]
      invariant counts == AddPhases(c, first[..i])
    {
      assert first[..i + 1][..i] == first[..i];
      var phase := TruncateUtf8(first[i], MAX_PHASE_BYTES);
      if phase != first[i] {
        counts := counts.(truncatedValues := counts.truncatedValues + 1);
      }
      bounded := bounded + [phase];
    }
    assert first[..|first|] == first;
    if |phases| > |bounded| {
      counts := counts.(droppedValues := counts.droppedValues + (|phases| - |bounded|),
                        truncatedValues := counts.truncatedValues + 1);
    }
  }

  // ----- the recorder -----

  class TraceRecorder {
    var operations: seq<MutableOperation>
    var nextSequence: nat
    var droppedOperations: nat
    var truncatedIdentifiers: nat
    var isSealed: bool

    // The recorded operations are the first calls issued; the others are counted, and none is lost before the
    // list is full or the trace sealed.
    predicate Valid()
      reads this
    {
      && |operations| <= MAX_RECORDED_OPERATIONS
      && nextSequence == |operations| + droppedOperations
      && (forall i :: 0 <= i < |operations| ==> operations[i].sequence == i)
      && (droppedOperations > 0 ==> isSealed || |operations| == MAX_RECORDED_OPERATIONS)
    }

    constructor ()
      ensures Valid() && !isSealed && nextSequence == 0 && truncatedIdentifiers == 0
    {
      operations, nextSequence, droppedOperations, truncatedIdentifiers, isSealed := [], 0, 0, 0, false;
    }

    method SnapshotIdentifier(value: Text) returns (bounded: Text)
      modifies this`truncatedIdentifiers
      ensures bounded == Truncated(value, MAX_IDENTIFIER_BYTES)
      ensures truncatedIdentifiers == old(truncatedIdentifiers) + if bounded == value then 0 else 1
    {
      bounded := TruncateUtf8(value, MAX_IDENTIFIER_BYTES);
      if bounded != value {
        truncatedIdentifiers := truncatedIdentifiers + 1;
      }
    }

    method SnapshotOptional(value: Option<Text>) returns (bounded: Option<Text>)
      modifies this`truncatedIdentifiers
      ensures bounded == BoundedOptional(value)
      ensures truncatedIdentifiers == old(truncatedIdentifiers) + if bounded == value then 0 else 1
    {
      bounded := None;
      if value.Some? {
        var b := SnapshotIdentifier(value.value);
        bounded := Some(b);
      }
    }

    method IssueCall(ref: Text, args: Sanitized<seq<Field>>) returns (handle: OperationHandle)
      requires Valid()
      modifies this
      ensures Valid() && nextSequence == old(nextSequence) + 1 && isSealed == old(isSealed)
      ensures fresh(handle) && handle.recorder == this
      ensures old(isSealed || |operations| == MAX_RECORDED_OPERATIONS) ==>
        handle.operation == null && operations == old(operations) && droppedOperations == old(droppedOperations) + 1
      ensures !old(isSealed || |operations| == MAX_RECORDED_OPERATIONS) ==>
        && droppedOperations == old(droppedOperations) && handle.operation != null && fresh(handle.operation)
        && operations == old(operations) + [handle.operation]
        && handle.operation.sequence == old(nextSequence) && handle.operation.projectionRef == ref
        && handle.operation.ref == Truncated(ref, MAX_IDENTIFIER_BYTES)
        && var (provider, action) := LexicalIdentity(ref);
           handle.operation.Snapshot()
             == OpState(BoundedOptional(provider), BoundedOptional(action), None, None, args, None, None, None, None, 0)
      ensures handle.operation != null ==>
        && IsCutTo(ref, 1024, handle.operation.ref)
        && IsIdentity(ref, handle.operation.provider, handle.operation.action)
    {
      IssuedIdentity(ref);
      TruncatedIsCut(ref, 1024);
      hide IsIdentity, IsCutTo, Truncated, LexicalIdentity;
      var sequence := nextSequence;
      nextSequence := nextSequence + 1;
      if isSealed || |operations| >= MAX_RECORDED_OPERATIONS {
        droppedOperations := droppedOperations + 1;
        handle := new OperationHandle(this, null);
        return;
      }
      var (provider, action) := LexicalIdentity(ref);
      var boundedRef := SnapshotIdentifier(ref);
      var boundedProvider := SnapshotOptional(provider);
      var boundedAction := SnapshotOptional(action);
      var operation := new MutableOperation(sequence, boundedRef, ref, boundedProvider, boundedAction, args);
      operations := operations + [operation];
      handle := new OperationHandle(this, operation);
    }

    method FinishAll(run: Outcome)
      requires Valid()
      modifies operations
      ensures forall i :: 0 <= i < |operations| ==>
        operations[i].Snapshot() == Finished(old(operations[i].Snapshot()), operations[i].projectionRef, run)
      ensures forall i :: 0 <= i < |operations| ==> operations[i].outcome.Some?
    {
      hide Finished;
      for k := 0 to |operations|
        invariant forall i :: 0 <= i < k ==>
          operations[i].Snapshot() == Finished(old(operations[i].Snapshot()), operations[i].projectionRef, run)
        invariant forall i :: k <= i < |operations| ==> operations[i].Snapshot() == old(operations[i].Snapshot())
      {
        forall i | 0 <= i < |operations| && i != k ensures operations[i] != operations[k] {
          assert operations[i].sequence == i && operations[k].sequence == k;
        }
        operations[k].Finish(run);
      }
      forall i | 0 <= i < |operations| ensures operations[i].outcome.Some? {
        FinishedFacts(old(operations[i].Snapshot()), operations[i].projectionRef, run);
      }
    }

    ghost function States(): (s: seq<OpState>)
      reads this, operations
      ensures |s| == |operations|
    {
      seq(|operations|, i requires 0 <= i < |operations| reads this, operations => operations[i].Snapshot())
    }

    // The sealed operations and what their values count.
    method Collect(c: Counts) returns (sealedOps: seq<Operation>, counts: Counts)
      requires forall i :: 0 <= i < |operations| ==> operations[i].outcome.Some?
      ensures forall i :: 0 <= i < |operations| ==> States()[i].outcome.Some?
      ensures sealedOps == SealedAll(operations, States())
      ensures counts == AddOperations(c, States())
    {
      sealedOps, counts := [], c;
      ghost var states := States();
      for k := 0 to |operations|
        invariant sealedOps == SealedAll(operations, states)[..k]
        invariant counts == AddOperations(c, states[..k])
      {
        assert states[..k + 1][..k] == states[..k];
        var operation := operations[k].Snapshot();
        counts := AddOperation(counts, operation);
        sealedOps := sealedOps + [Sealed(operations[k].sequence, operations[k].ref, operation)];
      }
      assert states[..|states|] == states;
    }

    // The trace before it is cut down.
    method Compose(run: Outcome, phases: seq<Text>) returns (trace: Trace)
      requires forall i :: 0 <= i < |operations| ==> operations[i].outcome.Some?
      ensures forall i :: 0 <= i < |operations| ==> States()[i].outcome.Some?
      ensures trace == Whole(run, phases, operations, States(), truncatedIdentifiers, droppedOperations)
    {
      hide AddOperations, PhaseCounts, SealedAll, BoundedPhases;
      var sealedOps, counted := Collect(Counts(0, truncatedIdentifiers, 0, droppedOperations));
      var boundedPhases, counts := BoundPhases(phases, counted);
      trace := Trace(run, boundedPhases, sealedOps, counts, RunError(run));
    }

    method Seal(run: Outcome, phases: seq<Text>) returns (trace: Trace)
      requires Valid()
      modifies this`isSealed, operations
      ensures Valid() && isSealed
      ensures forall i :: 0 <= i < |operations| ==>
        operations[i].Snapshot() == Finished(old(operations[i].Snapshot()), operations[i].projectionRef, run)
      ensures forall i :: 0 <= i < |operations| ==> States()[i].outcome.Some?
      ensures CutDown(Whole(run, phases, operations, States(), truncatedIdentifiers, droppedOperations), trace)
      ensures |trace.operations| <= |operations|
      ensures forall i :: 0 <= i < |trace.operations| ==> IsSealed(trace.operations[i], operations[i], States()[i])
    {
      hide Finished, CutDown, Whole, MutableOperation.Snapshot, IsSealed;
      isSealed := true;
      FinishAll(run);
      trace := Compose(run, phases);
      trace := CutToSize(trace);
      SealedFields(operations, States(), run, phases, truncatedIdentifiers, droppedOperations, trace);
    }
  }

  function BoundedOptional(value: Option<Text>): Option<Text> {
    if value.Some? then Some(Truncated(value.value, MAX_IDENTIFIER_BYTES)) else None
  }

  function IndexOfDot(t: Text): (i: int)
    ensures -1 <= i < |t|
    ensures i >= 0 ==> t[i] == DOT && forall j :: 0 <= j < i ==> t[j] != DOT
    ensures i < 0 ==> forall j :: 0 <= j < |t| ==> t[j] != DOT
  {
    if t == [] then -1 else if t[0] == DOT then 0 else
      var j := IndexOfDot(t[1..]);
      if j < 0 then -1 else j + 1
  }

  // provider.action, split at the first dot when both sides are there.
  function LexicalIdentity(ref: Text): (r: (Option<Text>, Option<Text>))
    ensures r.0.Some? == r.1.Some? && (r.0.Some? <==> 0 < IndexOfDot(ref) < |ref| - 1)
    ensures r.0.Some? ==>
      && r.0.value != [] && r.1.value != [] && ref == r.0.value + [DOT] + r.1.value
      && DOT !in r.0.value
  {
    var separator := IndexOfDot(ref);
    if separator <= 0 || separator == |ref| - 1 then (None, None)
    else (Some(ref[..separator]), Some(ref[separator + 1..]))
  }

  // A reference is split exactly when it has a first dot with something on either side.
  lemma SplitExactly(ref: Text)
    ensures LexicalIdentity(ref).0.Some? <==> exists i :: 0 < i < |ref| - 1 && FirstDot(ref, i)
  {
    var separator := IndexOfDot(ref);
    if 0 < separator < |ref| - 1 {
      assert FirstDot(ref, separator);
    }
  }

  ghost predicate FirstDot(t: Text, i: nat) {
    i < |t| && t[i] == DOT && forall j :: 0 <= j < i ==> t[j] != DOT
  }

  // An identifier that replaces another one counts when it is cut.
  function NewlyCut(before: Option<Text>, value: Text): nat {
    var bounded := Truncated(value, MAX_IDENTIFIER_BYTES);
    if before != Some(bounded) && bounded != value then 1 else 0
  }

  // There is only one cut text.
  lemma CutIsOne(t: Text, maxBytes: nat, r: Text)
    ensures IsCutTo(t, maxBytes, r) <==> r == Truncated(t, maxBytes)
  {
    TruncatedIsCut(t, maxBytes);
    var cut := Truncated(t, maxBytes);
    hide Truncated, Letters, Utf8Bytes;
    if IsCutTo(t, maxBytes, r) && Utf8Bytes(t) > maxBytes {
      var n: nat, mark: Text :| IsCutAt(t, maxBytes, r, n, mark);
      var m: nat, same: Text :| IsCutAt(t, maxBytes, cut, m, same);
      SameLetters(mark, same, "[truncated]");
      assert n == m;
    }
  }

  lemma SameLetters(t: Text, u: Text, s: string)
    requires Letters(t, s) && Letters(u, s)
    ensures t == u
  {}

  // It counts exactly when it is longer than 1024 bytes and what is there is not its cut already.
  lemma NewlyCutIs(before: Option<Text>, value: Text)
    ensures NewlyCut(before, value)
      == if Utf8Bytes(value) > 1024 && !(before.Some? && IsCutTo(value, 1024, before.value)) then 1 else 0
  {
    if before.Some? { CutIsOne(value, 1024, before.value); }
    CutIsShorter(value, 1024);
    hide IsCutTo;
  }

  class OperationHandle {
    const recorder: TraceRecorder
    const operation: MutableOperation?

    constructor (recorder: TraceRecorder, operation: MutableOperation?)
      ensures this.recorder == recorder && this.operation == operation
    {
      this.recorder, this.operation := recorder, operation;
    }

    ghost predicate Live()
      reads recorder
    {
      operation != null && !recorder.isSealed
    }

    method Resolved(provider: Text, action: Text, risk: Option<Risk>, effect: Option<Effect>)
      modifies recorder`truncatedIdentifiers, operation
      ensures old(recorder.isSealed) ==> unchanged(recorder) && (operation != null ==> unchanged(operation))
      ensures operation != null && !old(recorder.isSealed) ==>
        && operation.provider.Some? && IsCutTo(provider, 1024, operation.provider.value)
        && operation.action.Some? && IsCutTo(action, 1024, operation.action.value)
      ensures operation != null && !old(Live()) ==> operation.Snapshot() == old(operation.Snapshot())
      ensures recorder.truncatedIdentifiers == old(recorder.truncatedIdentifiers)
        + (if old(Live())
           then NewlyCut(old(operation.provider), provider) + NewlyCut(old(operation.action), action) else 0)
      ensures old(Live()) ==> operation.Snapshot() == old(operation.Snapshot()).(
        provider := Some(Truncated(provider, MAX_IDENTIFIER_BYTES)),
        action := Some(Truncated(action, MAX_IDENTIFIER_BYTES)),
        risk := if risk.Some? then risk else old(operation.risk),
        effect := if effect.Some? then effect else old(operation.effect))
    {
      TruncatedIsCut(provider, 1024);
      TruncatedIsCut(action, 1024);
      hide IsCutTo;
      if operation == null || recorder.isSealed { return; }
      var boundedProvider := TruncateUtf8(provider, MAX_IDENTIFIER_BYTES);
      var boundedAction := TruncateUtf8(action, MAX_IDENTIFIER_BYTES);
      if operation.provider != Some(boundedProvider) {
        var p := recorder.SnapshotIdentifier(provider);
        operation.provider := Some(p);
      }
      if operation.action != Some(boundedAction) {
        var a := recorder.SnapshotIdentifier(action);
        operation.action := Some(a);
      }
      if risk.Some? { operation.risk := risk; }
      if effect.Some? { operation.effect := effect; }
    }

    method Prepared(args: Sanitized<seq<Field>>)
      modifies operation
      ensures operation != null && old(recorder.isSealed) ==> unchanged(operation)
      ensures operation != null ==>
        operation.Snapshot() ==
          if old(Live()) then old(operation.Snapshot()).(args := args) else old(operation.Snapshot())
    {
      if operation == null || recorder.isSealed { return; }
      operation.args := args;
    }

    method Succeed(hasResult: bool, projected: Option<Sanitized<Json>>)
      modifies operation
      ensures operation != null && old(recorder.isSealed) ==> unchanged(operation)
      ensures operation != null ==>
        operation.Snapshot() ==
          if old(Live()) then Succeeding(old(operation.Snapshot()), hasResult, projected)
          else old(operation.Snapshot())
    {
      if operation == null || recorder.isSealed { return; }
      operation.SetResult(hasResult, projected);
      operation.outcome := Some(Succeeded);
    }

    method Fail(stage: Stage, cause: Option<Text>, outcome: Outcome, hasResult: bool,
                projected: Option<Sanitized<Json>>)
      modifies operation
      ensures operation != null && old(recorder.isSealed) ==> unchanged(operation)
      ensures operation != null ==>
        operation.Snapshot() == if old(Live())
          then Failing(old(operation.Snapshot()), operation.projectionRef, stage, cause, outcome, hasResult, projected)
          else old(operation.Snapshot())
    {
      hide SanitizeText, FailureMessage;
      if operation == null || recorder.isSealed { return; }
      operation.failureStage := Some(stage);
      var told := if IsBash(operation.projectionRef) && stage == Invoke && outcome == Failed then cause else None;
      operation.SetError(FailureMessage(stage, outcome, told));
      operation.outcome := Some(outcome);
      operation.SetResult(hasResult, projected);
    }
  }

  // ----- what a sealed trace holds -----

  // The operations of the sealed trace are the first calls issued, in order, as the recorder left them but for results
  // and arguments given up; with the dropped ones they account for every call issued.
  lemma SealedTraceAccountsForCalls(ops: seq<MutableOperation>, states: seq<OpState>, run: Outcome, phases: seq<Text>,
                                    truncated: nat, dropped: nat, issued: nat, trace: Trace)
    requires |states| == |ops| && (forall i :: 0 <= i < |states| ==> states[i].outcome.Some?)
    requires (forall i :: 0 <= i < |ops| ==> ops[i].sequence == i) && issued == |ops| + dropped
    requires CutDown(Whole(run, phases, ops, states, truncated, dropped), trace)
    ensures |trace.operations| <= |ops| && |trace.operations| + trace.counts.droppedOperations == issued
    ensures forall i :: 0 <= i < |trace.operations| ==>
      trace.operations[i].sequence == i && trace.operations[i].outcome == states[i].outcome.value
    ensures trace.outcome == run && trace.error == RunError(run)
    ensures trace.phases <= BoundedPhases(FirstOf(phases, MAX_PHASES))
  {
    hide CutDown, AddOperations, AddPhases, BoundedPhases, RunError;
    var whole := Whole(run, phases, ops, states, truncated, dropped);
    CutKeeps(whole, trace);
    AddKeepsDropped(Counts(0, truncated, 0, dropped), states);
    PhasesKeepDropped(AddOperations(Counts(0, truncated, 0, dropped), states), FirstOf(phases, MAX_PHASES));
    forall i | 0 <= i < |trace.operations|
      ensures trace.operations[i].sequence == i && trace.operations[i].outcome == states[i].outcome.value
    {
      assert Remains(whole.operations[i], trace.operations[i]);
    }
  }

  lemma {:induction false} AddKeepsDropped(c: Counts, states: seq<OpState>)
    ensures AddOperations(c, states).droppedOperations == c.droppedOperations
  {
    if states != [] {
      AddKeepsDropped(c, states[..|states| - 1]);
    }
  }

  lemma {:induction false} PhasesKeepDropped(c: Counts, phases: seq<Text>)
    ensures AddPhases(c, phases).droppedOperations == c.droppedOperations
  {
    if phases != [] {
      PhasesKeepDropped(c, phases[..|phases| - 1]);
    }
  }

  // ----- field by field -----

  // A sealed operation has every field of the recorded one, but for arguments or a result that were given up.
  ghost predicate IsSealed(op: Operation, m: MutableOperation, s: OpState) {
    && op.sequence == m.sequence && op.ref == m.ref
    && op.provider == s.provider && op.action == s.action && op.risk == s.risk && op.effect == s.effect
    && Some(op.outcome) == s.outcome && op.failureStage == s.failureStage
    && (if s.error.None? then op.error == None else op.error == Some(s.error.value.value))
    && (op.args == s.args.value || op.args == [])
    && (op.result == None || (s.result.Some? && op.result == Some(s.result.value.value)))
  }

  // Every operation of a sealed trace is one recorded, field by field; in a trace that needed no cut nothing is
  // given up.
  lemma SealedFields(ops: seq<MutableOperation>, states: seq<OpState>, run: Outcome, phases: seq<Text>,
                     truncated: nat, dropped: nat, trace: Trace)
    requires |states| == |ops| && (forall i :: 0 <= i < |states| ==> states[i].outcome.Some?)
    requires CutDown(Whole(run, phases, ops, states, truncated, dropped), trace)
    ensures |trace.operations| <= |ops|
    ensures forall i :: 0 <= i < |trace.operations| ==> IsSealed(trace.operations[i], ops[i], states[i])
    ensures Fits(Whole(run, phases, ops, states, truncated, dropped)) ==>
      && |trace.operations| == |ops|
      && forall i :: 0 <= i < |ops| ==>
           && trace.operations[i].args == states[i].args.value
           && (states[i].result.Some? ==> trace.operations[i].result == Some(states[i].result.value.value))
  {
    hide CutDown, Fits, AddOperations, AddPhases, BoundedPhases, RunError, PhaseCounts;
    var whole := Whole(run, phases, ops, states, truncated, dropped);
    CutKeeps(whole, trace);
    forall i | 0 <= i < |trace.operations| ensures IsSealed(trace.operations[i], ops[i], states[i]) {
      assert Remains(whole.operations[i], trace.operations[i]);
    }
  }

  // ----- what a trace counts before it is cut down -----

  // The tallies of the values an operation holds.
  ghost function Tallies(s: OpState): seq<Tally> {
    [s.args.tally] + (if s.error.Some? then [s.error.value.tally] else [])
      + (if s.result.Some? then [s.result.value.tally] else [])
  }

  ghost function AllTallies(states: seq<OpState>): seq<Tally> {
    if states == [] then [] else AllTallies(states[..|states| - 1]) + Tallies(states[|states| - 1])
  }

  ghost function Sum(ts: seq<Tally>, of: Tally -> nat): nat {
    if ts == [] then 0 else Sum(ts[..|ts| - 1], of) + of(ts[|ts| - 1])
  }

  ghost function Unshown(states: seq<OpState>): nat {
    if states == [] then 0 else Unshown(states[..|states| - 1]) + states[|states| - 1].droppedResultValues
  }

  // How many phases are longer than 1024 bytes.
  ghost function LongPhases(phases: seq<Text>): nat {
    if phases == [] then 0
    else LongPhases(phases[..|phases| - 1]) + if Utf8Bytes(phases[|phases| - 1]) > 1024 then 1 else 0
  }

  lemma {:induction false} SumConcat(a: seq<Tally>, b: seq<Tally>, of: Tally -> nat)
    ensures Sum(a + b, of) == Sum(a, of) + Sum(b, of)
  {
    if b == [] {
      assert a + b == a;
    } else {
      SumConcat(a, b[..|b| - 1], of);
      assert (a + b)[..|a + b| - 1] == a + b[..|b| - 1];
    }
  }

  lemma SumOne(t: Tally, of: Tally -> nat)
    ensures Sum([t], of) == of(t)
  {
    assert [t][..0] == [];
  }

  lemma SumOfOne(s: OpState, of: Tally -> nat)
    ensures Sum(Tallies(s), of) == of(s.args.tally) + (if s.error.Some? then of(s.error.value.tally) else 0)
                                   + (if s.result.Some? then of(s.result.value.tally) else 0)
  {
    var a, e := [s.args.tally], if s.error.Some? then [s.error.value.tally] else [];
    var r := if s.result.Some? then [s.result.value.tally] else [];
    SumConcat(a + e, r, of);
    SumConcat(a, e, of);
    SumOne(s.args.tally, of);
    if s.error.Some? { SumOne(s.error.value.tally, of); }
    if s.result.Some? { SumOne(s.result.value.tally, of); }
  }

  ghost function Dropped(): Tally -> nat { (t: Tally) => t.dropped }

  ghost function Shortened(): Tally -> nat { (t: Tally) => t.truncated }

  ghost function Redacted(): Tally -> nat { (t: Tally) => t.redacted }

  lemma {:induction false} CountsAreSums(c: Counts, states: seq<OpState>)
    ensures var ts := AllTallies(states);
      AddOperations(c, states) == Counts(c.droppedValues + Sum(ts, Dropped()) + Unshown(states),
                                         c.truncatedValues + Sum(ts, Shortened()),
                                         c.redactedValues + Sum(ts, Redacted()), c.droppedOperations)
  {
    if states != [] {
      var init, s := states[..|states| - 1], states[|states| - 1];
      CountsAreSums(c, init);
      SumConcat(AllTallies(init), Tallies(s), Dropped());
      SumConcat(AllTallies(init), Tallies(s), Shortened());
      SumConcat(AllTallies(init), Tallies(s), Redacted());
      SumOfOne(s, Dropped());
      SumOfOne(s, Shortened());
      SumOfOne(s, Redacted());
      hide Sum, Tallies;
    }
  }

  lemma {:induction false} PhasesAreCounted(c: Counts, phases: seq<Text>)
    ensures AddPhases(c, phases) == c.(truncatedValues := c.truncatedValues + LongPhases(phases))
  {
    if phases != [] {
      PhasesAreCounted(c, phases[..|phases| - 1]);
      CutIsShorter(phases[|phases| - 1], MAX_PHASE_BYTES);
    }
  }

  // A text that is cut does not stay the same.
  lemma CutIsShorter(t: Text, maxBytes: nat)
    requires maxBytes >= 14
    ensures Truncated(t, maxBytes) == t <==> Utf8Bytes(t) <= maxBytes
  {
    TruncatedFits(t, maxBytes);
  }

  // Every value lost, cut or redacted on the way to the trace is in its counts, and so are the phases beyond 512.
  lemma WholeCounts(run: Outcome, phases: seq<Text>, ops: seq<MutableOperation>, states: seq<OpState>,
                    truncated: nat, dropped: nat)
    requires |states| == |ops| && forall i :: 0 <= i < |states| ==> states[i].outcome.Some?
    ensures var counts, ts := Whole(run, phases, ops, states, truncated, dropped).counts, AllTallies(states);
      && counts.droppedValues == Sum(ts, Dropped()) + Unshown(states) + (if |phases| > 512 then |phases| - 512 else 0)
      && counts.truncatedValues == truncated + Sum(ts, Shortened()) + LongPhases(FirstOf(phases, 512))
                                   + (if |phases| > 512 then 1 else 0)
      && counts.redactedValues == Sum(ts, Redacted()) && counts.droppedOperations == dropped
  {
    CountsAreSums(Counts(0, truncated, 0, dropped), states);
    PhasesAreCounted(AddOperations(Counts(0, truncated, 0, dropped), states), FirstOf(phases, MAX_PHASES));
    hide AddOperations, AddPhases, Sum, Unshown, LongPhases;
  }

  // The phases of the whole trace are the first 512, each cut to 1024 bytes, and its error says how the run ended.
  lemma WholePhases(run: Outcome, phases: seq<Text>, ops: seq<MutableOperation>, states: seq<OpState>,
                    truncated: nat, dropped: nat)
    requires |states| == |ops| && forall i :: 0 <= i < |states| ==> states[i].outcome.Some?
    ensures var whole := Whole(run, phases, ops, states, truncated, dropped);
      && whole.outcome == run && |whole.phases| == (if |phases| > 512 then 512 else |phases|)
      && (forall i :: 0 <= i < |whole.phases| ==> IsCutTo(phases[i], 1024, whole.phases[i]))
      && match run
         case Succeeded => whole.error == None
         case TimedOut => whole.error.Some? && Letters(whole.error.value, "Execution timed out")
         case Aborted => whole.error.Some? && Letters(whole.error.value, "Execution aborted")
         case Failed => whole.error.Some? && Letters(whole.error.value, "Execution failed")
  {
    hide AddOperations, AddPhases, IsCutTo, Truncated;
    forall i | 0 <= i < |FirstOf(phases, MAX_PHASES)|
      ensures IsCutTo(phases[i], 1024, BoundedPhases(FirstOf(phases, MAX_PHASES))[i])
    {
      TruncatedIsCut(phases[i], 1024);
    }
  }

  // The identity of a reference: the bounded sides of its first dot when there is something on either, and
  // none otherwise.
  ghost predicate IsIdentity(ref: Text, provider: Option<Text>, action: Option<Text>) {
    if Split(ref)
    then exists i :: 0 < i < |ref| - 1 && FirstDot(ref, i) && provider.Some? && IsCutTo(ref[..i], 1024, provider.value)
                     && action.Some? && IsCutTo(ref[i + 1..], 1024, action.value)
    else provider == None && action == None
  }

  ghost predicate Split(ref: Text) {
    exists i :: 0 < i < |ref| - 1 && FirstDot(ref, i)
  }

  lemma IssuedIdentity(ref: Text)
    ensures var (provider, action) := LexicalIdentity(ref);
      IsIdentity(ref, BoundedOptional(provider), BoundedOptional(action))
  {
    var dot := IndexOfDot(ref);
    if dot >= 0 {
      assert FirstDot(ref, dot);
      forall i: nat | FirstDot(ref, i) ensures i == dot {}
      TruncatedIsCut(ref[..dot], 1024);
      TruncatedIsCut(ref[dot + 1..], 1024);
    }
    hide IsCutTo, Truncated, IndexOfDot;
  }

  // The sealed trace is within the limit whatever was recorded, as long as the counts stay within sixteen digits.
  lemma SealedTraceFits(ops: seq<MutableOperation>, states: seq<OpState>, run: Outcome, phases: seq<Text>,
                        truncated: nat, dropped: nat, trace: Trace)
    requires |states| == |ops| <= MAX_RECORDED_OPERATIONS && (forall i :: 0 <= i < |states| ==> states[i].outcome.Some?)
    requires CutDown(Whole(run, phases, ops, states, truncated, dropped), trace)
    requires SmallCounts(Whole(run, phases, ops, states, truncated, dropped).counts, MAX_COUNT - 5_000)
    ensures Fits(trace)
  {
    hide CutDown, Fits, AddOperations, PhaseCounts;
    CutFits(Whole(run, phases, ops, states, truncated, dropped), trace);
  }
}
