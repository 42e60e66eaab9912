// The one-at-a-time compaction control of a child agent (src/agents/compact-control.ts).
module CompactControl {
  import opened Basics

  // Request ids carry the run and a sequence number; here they are the number.
  datatype InFlight = InFlight(id: nat, responseSeen: bool, endSeen: bool, failed: bool)

  // What the hooks were called for.
  datatype Call = Send(id: nat, instructions: Option<string>) | Finished(id: nat, failed: bool) | Close

  datatype Control = Control(
    pending: Option<Option<string>>,
    inFlight: Option<InFlight>,
    childSettled: bool,
    closed: bool,
    sequence: nat,
    attempts: nat,
    coalesced: nat,
    calls: seq<Call>)

  // Events from outside; `Response` and `End` are frames the child prints.
  datatype Event =
    | Queue(instructions: Option<string>)
    | ChildSettled
    | Response(id: nat, success: bool)
    | End(failed: bool)
    | OtherFrame

  const INITIAL := Control(None, None, false, false, 0, 0, 0, [])

  function CloseOnce(c: Control): Control {
    if c.closed then c else c.(closed := true, calls := c.calls + [Close])
  }

  function Rank(c: Control): nat { if c.pending.Some? then 1 else 0 }

  // `throws` says whether sending fails.
  function StartPending(c: Control, throws: bool): Control
    decreases Rank(c), 0
  {
    if c.pending.None? || c.inFlight.Some? || c.closed then c else
      var id := c.sequence + 1;
      var sent := c.(pending := None, sequence := id, inFlight := Some(InFlight(id, false, false, false)),
                     attempts := c.attempts + 1, calls := c.calls + [Send(id, c.pending.value)]);
      if throws then Finish(sent, true, throws) else sent
  }

  function Finish(c: Control, failed: bool, throws: bool): Control
    decreases Rank(c), 1
  {
    if c.inFlight.None? then c else
      var done := c.(inFlight := None, calls := c.calls + [Finished(c.inFlight.value.id, failed)]);
      if done.pending.Some? then StartPending(done, throws) else CloseOnce(done)
  }

  function MaybeFinish(c: Control, throws: bool): Control {
    if c.inFlight.Some? && c.inFlight.value.responseSeen && c.inFlight.value.endSeen
    then Finish(c, c.inFlight.value.failed, throws) else c
  }

  function Observe(c: Control, e: Event, throws: bool): Control {
    if c.inFlight.None? then c else
      var f := c.inFlight.value;
      match e
      case Response(id, success) =>
        if id != f.id then c
        else if !success then Finish(c, true, throws)
        else MaybeFinish(c.(inFlight := Some(f.(responseSeen := true))), throws)
      case End(failed) => MaybeFinish(c.(inFlight := Some(f.(endSeen := true, failed := f.failed || failed))), throws)
      case _ => c
  }

  // The latest instructions replace those still pending.
  function Queueing(c: Control, instructions: Option<string>): Control {
    c.(coalesced := if c.pending.Some? then c.coalesced + 1 else c.coalesced,
       pending := Some(if instructions == Some("") then None else instructions))
  }

  function Enqueue(c: Control, instructions: Option<string>, throws: bool): Control {
    var q := Queueing(c, instructions);
    if q.inFlight.Some? then q else if q.childSettled then StartPending(q, throws) else q
  }

  function SettleChild(c: Control, throws: bool): Control {
    var s := c.(childSettled := true);
    if s.inFlight.Some? then s else if s.pending.Some? then StartPending(s, throws) else CloseOnce(s)
  }

  function Step(c: Control, e: Event, throws: bool): Control {
    match e
    case Queue(i) => Enqueue(c, i, throws)
    case ChildSettled => SettleChild(c, throws)
    case _ => Observe(c, e, throws)
  }

  // ----- what every run keeps -----

  function Closes(calls: seq<Call>): nat {
    if calls == [] then 0 else Closes(calls[..|calls| - 1]) + if calls[|calls| - 1].Close? then 1 else 0
  }

  function Sends(calls: seq<Call>): nat {
    if calls == [] then 0 else Sends(calls[..|calls| - 1]) + if calls[|calls| - 1].Send? then 1 else 0
  }

  function Finishes(calls: seq<Call>): nat {
    if calls == [] then 0 else Finishes(calls[..|calls| - 1]) + if calls[|calls| - 1].Finished? then 1 else 0
  }

  // Sends and finishes alternate, each finish for the request just sent, and the close comes last, between requests.
  ghost predicate Orderly(calls: seq<Call>) {
    calls != [] ==>
      var init, last := calls[..|calls| - 1], calls[|calls| - 1];
      && Orderly(init)
      && match last
         case Send(id, _) => Idle(init) && Closes(init) == 0 && id == Sends(init) + 1
         case Finished(id, _) => !Idle(init) && init[|init| - 1].Send? && init[|init| - 1].id == id
         case Close => Idle(init) && Closes(init) == 0
  }

  // No request is out.
  ghost predicate Idle(calls: seq<Call>) {
    calls == [] || !calls[|calls| - 1].Send?
  }

  ghost predicate Invariant(c: Control) {
    && Orderly(c.calls)
    && c.sequence == c.attempts == Sends(c.calls)
    && Closes(c.calls) == (if c.closed then 1 else 0)
    && (c.inFlight.Some? <==> !Idle(c.calls))
    && (c.inFlight.Some? ==> c.inFlight.value.id == c.sequence == c.calls[|c.calls| - 1].id)
    && (c.inFlight.Some? ==> c.childSettled && !c.closed)
    && (c.inFlight.Some? ==> !(c.inFlight.value.responseSeen && c.inFlight.value.endSeen))
    && (c.closed ==> c.childSettled)
    // Once the child settled the control is closed or busy.
    && (c.childSettled ==> c.closed || c.inFlight.Some?)
  }

  lemma CallsStep(calls: seq<Call>, x: Call)
    ensures Closes(calls + [x]) == Closes(calls) + if x.Close? then 1 else 0
    ensures Sends(calls + [x]) == Sends(calls) + if x.Send? then 1 else 0
    ensures Orderly(calls + [x]) <==> Orderly(calls) && match x
         case Send(id, _) => Idle(calls) && Closes(calls) == 0 && id == Sends(calls) + 1
         case Finished(id, _) => !Idle(calls) && calls[|calls| - 1].Send? && calls[|calls| - 1].id == id
         case Close => Idle(calls) && Closes(calls) == 0
  {
    assert (calls + [x])[..|calls|] == calls;
  }

  // Every request that was sent has finished, but for the one that is out.
  lemma {:induction false} SentOrFinished(calls: seq<Call>)
    requires Orderly(calls)
    ensures Sends(calls) == Finishes(calls) + if Idle(calls) then 0 else 1
  {
    if calls != [] {
      SentOrFinished(calls[..|calls| - 1]);
    }
  }

  // The invariant without its last clause, between requests.
  ghost predicate Between(c: Control) {
    && Orderly(c.calls) && Idle(c.calls) && c.inFlight.None?
    && c.sequence == c.attempts == Sends(c.calls)
    && Closes(c.calls) == (if c.closed then 1 else 0)
    && c.childSettled
  }

  lemma CloseKeeps(c: Control)
    requires Between(c)
    ensures Invariant(CloseOnce(c)) && CloseOnce(c).closed
  {
    CallsStep(c.calls, Close);
  }

  lemma SendKeeps(c: Control)
    requires Between(c) && c.pending.Some? && !c.closed
    ensures Invariant(StartPending(c, false)) && StartPending(c, false).pending.None?
  {
    CallsStep(c.calls, Send(c.sequence + 1, c.pending.value));
  }

  lemma FinishGives(c: Control, failed: bool)
    requires Invariant(c)
      || (c.inFlight.Some? && Invariant(c.(inFlight := Some(c.inFlight.value.(responseSeen := false)))))
    requires c.inFlight.Some?
    ensures Between(c.(inFlight := None, calls := c.calls + [Finished(c.inFlight.value.id, failed)]))
  {
    CallsStep(c.calls, Finished(c.inFlight.value.id, failed));
  }

  lemma StartKeeps(c: Control, throws: bool)
    requires Between(c) && c.pending.Some? && !c.closed
    ensures Invariant(StartPending(c, throws))
    ensures throws ==> StartPending(c, throws).closed && StartPending(c, throws).pending.None?
  {
    SendKeeps(c);
    if throws {
      var sent := StartPending(c, false);
      FinishGives(sent, true);
      CloseKeeps(sent.(inFlight := None, calls := sent.calls + [Finished(sent.inFlight.value.id, true)]));
    }
  }

  lemma FinishKeeps(c: Control, failed: bool, throws: bool)
    requires c.inFlight.Some? && !c.closed
    requires Between(c.(inFlight := None, calls := c.calls + [Finished(c.inFlight.value.id, failed)]))
    ensures Invariant(Finish(c, failed, throws))
  {
    var done := c.(inFlight := None, calls := c.calls + [Finished(c.inFlight.value.id, failed)]);
    if done.pending.Some? {
      StartKeeps(done, throws);
    } else {
      CloseKeeps(done);
    }
  }

  lemma StepKeeps(c: Control, e: Event, throws: bool)
    requires Invariant(c)
    ensures Invariant(Step(c, e, throws))
  {
    match e
    case Queue(i) =>
      assert Invariant(Queueing(c, i));
    case ChildSettled =>
      var s := c.(childSettled := true);
      if s.inFlight.None? {
        if s.pending.Some? && !s.closed {
          StartKeeps(s, throws);
        } else if s.pending.None? {
          CloseKeeps(s);
        }
      }
    case Response(id, success) =>
      if c.inFlight.Some? && id == c.inFlight.value.id {
        var f := c.inFlight.value;
        if !success {
          FinishGives(c, true);
          FinishKeeps(c, true, throws);
        } else if f.endSeen {
          var d := c.(inFlight := Some(f.(responseSeen := true)));
          FinishSeen(c, d, f.failed, throws);
        }
      }
    case End(failed) =>
      if c.inFlight.Some? && c.inFlight.value.responseSeen {
        var f := c.inFlight.value;
        var seen := c.(inFlight := Some(f.(endSeen := true, failed := f.failed || failed)));
        FinishSeen(c, seen, f.failed || failed, throws);
      }
    case OtherFrame =>
  }

  lemma FinishSeen(c: Control, d: Control, failed: bool, throws: bool)
    requires Invariant(c) && c.inFlight.Some? && d.inFlight.Some?
    requires d == c.(inFlight := d.inFlight) && d.inFlight.value.id == c.inFlight.value.id
    ensures Invariant(Finish(d, failed, throws))
  {
    FinishGives(c, failed);
    assert d.(inFlight := None, calls := d.calls + [Finished(d.inFlight.value.id, failed)])
        == c.(inFlight := None, calls := c.calls + [Finished(c.inFlight.value.id, failed)]);
    FinishKeeps(d, failed, throws);
  }

  // ----- runs -----

  function Run(events: seq<(Event, bool)>): Control {
    if events == [] then INITIAL
    else Step(Run(events[..|events| - 1]), events[|events| - 1].0, events[|events| - 1].1)
  }

  function Queued(events: seq<(Event, bool)>): nat {
    if events == [] then 0 else Queued(events[..|events| - 1]) + if events[|events| - 1].0.Queue? then 1 else 0
  }

  function PendingCount(c: Control): nat { if c.pending.Some? then 1 else 0 }

  // What a step does to the accounts.
  lemma StepCounts(c: Control, e: Event, throws: bool)
    requires Invariant(c)
    ensures Requests(Step(c, e, throws)) == Requests(c) + if e.Queue? then 1 else 0
  {
    match e
    case Queue(i) => StartEffects(Queueing(c, i), throws);
    case ChildSettled => StartEffects(c.(childSettled := true), throws);
    case _ => ObserveEffects(c, e, throws);
  }

  function Requests(c: Control): nat {
    c.attempts + c.coalesced + PendingCount(c)
  }

  // From c to d no request was lost, a closed control did nothing, and a close left nothing behind.
  ghost predicate Sound(c: Control, d: Control) {
    && Requests(d) == Requests(c)
    && (c.closed ==> d.closed && d.attempts == c.attempts)
    && (!c.closed && d.closed ==> d.inFlight.None? && d.pending.None?)
    && c.calls <= d.calls
  }

  lemma SoundFinish(c: Control, failed: bool, throws: bool)
    requires c.inFlight.Some? && !c.closed
    ensures Sound(c, Finish(c, failed, throws))
    ensures Finished(c.inFlight.value.id, failed) in Finish(c, failed, throws).calls
  {
    var done := c.(inFlight := None, calls := c.calls + [Finished(c.inFlight.value.id, failed)]);
    assert Finished(c.inFlight.value.id, failed) in done.calls;
    if done.pending.Some? {
      StartEffects(done, throws);
    }
  }

  lemma StartEffects(c: Control, throws: bool)
    ensures Sound(c, StartPending(c, throws))
  {
    if c.pending.Some? && c.inFlight.None? && !c.closed && throws {
      var id := c.sequence + 1;
      var sent := c.(pending := None, sequence := id, inFlight := Some(InFlight(id, false, false, false)),
                     attempts := c.attempts + 1, calls := c.calls + [Send(id, c.pending.value)]);
      var done := sent.(inFlight := None, calls := sent.calls + [Finished(id, true)]);
      assert Finish(sent, true, throws) == CloseOnce(done);
    }
  }

  lemma ObserveEffects(c: Control, e: Event, throws: bool)
    requires c.inFlight.Some? ==> !c.closed
    ensures Sound(c, Observe(c, e, throws))
  {
    if c.inFlight.Some? {
      var f := c.inFlight.value;
      match e
      case Response(id, success) =>
        SoundFinish(c, true, throws);
        var d := c.(inFlight := Some(f.(responseSeen := true)));
        SoundFinish(d, f.failed, throws);
      case End(failed) =>
        var d := c.(inFlight := Some(f.(endSeen := true, failed := f.failed || failed)));
        SoundFinish(d, f.failed || failed, throws);
      case _ =>
    }
  }

  // In every run: one request at a time, one close at most and nothing out or waiting when it comes, no request
  // lost or invented, each request sent finished but for the one in flight, and a settled child's control is closed or
  // busy.
  lemma {:induction false} EveryRun(events: seq<(Event, bool)>)
    ensures var c := Run(events);
      && Invariant(c)
      && Queued(events) == Requests(c)
      && c.attempts == Finishes(c.calls) + (if c.inFlight.Some? then 1 else 0)
      && (c.childSettled ==> c.closed || c.inFlight.Some?)
      && Closes(c.calls) <= 1
      && Orderly(c.calls)
  {
    hide Invariant, Step, Orderly, Closes, Finishes, Requests;
    if events == [] {
      StartIsFine();
    } else {
      var before, last := Run(events[..|events| - 1]), events[|events| - 1];
      EveryRun(events[..|events| - 1]);
      StepKeeps(before, last.0, last.1);
      StepCounts(before, last.0, last.1);
    }
    InvariantFacts(Run(events));
  }

  lemma StartIsFine()
    ensures Invariant(INITIAL) && Requests(INITIAL) == 0
  {}

  lemma InvariantFacts(c: Control)
    requires Invariant(c)
    ensures c.attempts == Finishes(c.calls) + (if c.inFlight.Some? then 1 else 0)
    ensures (c.childSettled ==> c.closed || c.inFlight.Some?) && Closes(c.calls) <= 1 && Orderly(c.calls)
  {
    hide Orderly, Closes, Sends, Finishes, Idle;
    SentOrFinished(c.calls);
  }

  // The close happens with nothing in flight and nothing pending, and after it nothing is sent.
  lemma CloseIsClean(c: Control, e: Event, throws: bool)
    requires Invariant(c)
    ensures var d := Step(c, e, throws);
      && (!c.closed && d.closed ==> d.inFlight.None? && d.pending.None?)
      && (c.closed ==> d.closed && d.attempts == c.attempts && d.calls == c.calls)
  {
    match e
    case Queue(i) => StartEffects(Queueing(c, i), throws);
    case ChildSettled => StartEffects(c.(childSettled := true), throws);
    case _ => ObserveEffects(c, e, throws);
  }

  // The response and the end of a compaction may come in either order.
  lemma OrderDoesNotMatter(c: Control, failed: bool, throws: bool)
    requires Invariant(c) && c.inFlight.Some?
    requires !c.inFlight.value.responseSeen && !c.inFlight.value.endSeen
    ensures var id := c.inFlight.value.id;
      && Step(Step(c, Response(id, true), throws), End(failed), throws)
           == Step(Step(c, End(failed), throws), Response(id, true), throws)
      && Finished(id, c.inFlight.value.failed || failed)
           in Step(Step(c, Response(id, true), throws), End(failed), throws).calls
  {
    var f := c.inFlight.value;
    var d := c.(inFlight := Some(InFlight(f.id, true, true, f.failed || failed)));
    SoundFinish(d, f.failed || failed, throws);
  }

  // ----- what is sent, and when it is over -----

  // What the latest queueing asked for; an empty text asks for nothing in particular.
  ghost function LatestOf(events: seq<(Event, bool)>): Option<string> {
    if events == [] then None
    else match events[|events| - 1].0
      case Queue(instructions) => if instructions.Some? && instructions.value == "" then None else instructions
      case _ => LatestOf(events[..|events| - 1])
  }

  // What a step may send: what is pending before it, or what it queues.
  ghost predicate SendsOnly(c: Control, d: Control, instructions: Option<string>) {
    && c.calls <= d.calls
    && (forall k :: |c.calls| <= k < |d.calls| && d.calls[k].Send? ==> d.calls[k].instructions == instructions)
    && (d.pending.Some? ==> d.pending.value == instructions)
  }

  lemma StartSends(c: Control, throws: bool, instructions: Option<string>)
    requires c.pending.Some? ==> c.pending.value == instructions
    ensures SendsOnly(c, StartPending(c, throws), instructions)
  {
    if c.pending.Some? && c.inFlight.None? && !c.closed && throws {
      var id := c.sequence + 1;
      var sent := c.(pending := None, sequence := id, inFlight := Some(InFlight(id, false, false, false)),
                     attempts := c.attempts + 1, calls := c.calls + [Send(id, c.pending.value)]);
      assert Finish(sent, true, throws)
        == CloseOnce(sent.(inFlight := None, calls := sent.calls + [Finished(id, true)]));
    }
  }

  lemma FinishSends(c: Control, failed: bool, throws: bool, instructions: Option<string>)
    requires c.pending.Some? ==> c.pending.value == instructions
    ensures SendsOnly(c, Finish(c, failed, throws), instructions)
  {
    if c.inFlight.Some? {
      StartSends(c.(inFlight := None, calls := c.calls + [Finished(c.inFlight.value.id, failed)]), throws,
                 instructions);
    }
  }

  lemma ObserveSends(c: Control, e: Event, throws: bool, instructions: Option<string>)
    requires c.pending.Some? ==> c.pending.value == instructions
    ensures SendsOnly(c, Observe(c, e, throws), instructions)
  {
    if c.inFlight.Some? {
      var f := c.inFlight.value;
      match e
      case Response(id, success) =>
        FinishSends(c, true, throws, instructions);
        FinishSends(c.(inFlight := Some(f.(responseSeen := true))), f.failed, throws, instructions);
      case End(failed) =>
        FinishSends(c.(inFlight := Some(f.(endSeen := true, failed := f.failed || failed))), f.failed || failed, throws,
                    instructions);
      case _ =>
    }
  }

  // Whatever is sent carries what the latest queueing asked for, and so does what is pending.
  lemma {:induction false} LatestIsSent(events: seq<(Event, bool)>)
    ensures var c := Run(events);
      && (c.pending.Some? ==> c.pending.value == LatestOf(events))
      && (events != [] ==> SendsOnly(Run(events[..|events| - 1]), c, LatestOf(events)))
  {
    if events != [] {
      LatestIsSent(events[..|events| - 1]);
      var c := Run(events[..|events| - 1]);
      var (e, throws) := events[|events| - 1];
      hide StartPending, Observe;
      match e
      case Queue(instructions) => StartSends(Queueing(c, instructions), throws, LatestOf(events));
      case ChildSettled => StartSends(c.(childSettled := true), throws, LatestOf(events));
      case _ => ObserveSends(c, e, throws, LatestOf(events));
    }
  }

  // Starting sends what is pending, first of all.
  lemma StartSendsFirst(c: Control, throws: bool)
    requires c.pending.Some? && c.inFlight.None? && !c.closed
    ensures var d := StartPending(c, throws);
      |d.calls| > |c.calls| && d.calls[|c.calls|] == Send(c.sequence + 1, c.pending.value)
  {
    var id := c.sequence + 1;
    var sent := c.(pending := None, sequence := id, inFlight := Some(InFlight(id, false, false, false)),
                   attempts := c.attempts + 1, calls := c.calls + [Send(id, c.pending.value)]);
    assert throws ==> StartPending(c, throws).calls == sent.calls + [Finished(id, true)] + [Close];
  }

  // Queueing sends at once when the child has settled and nothing is in flight, and otherwise only notes the request.
  lemma QueueMeans(c: Control, instructions: Option<string>, throws: bool)
    ensures var d := Step(c, Queue(instructions), throws);
      var asked := if instructions == Some("") then None else instructions;
      if c.childSettled && c.inFlight.None? && !c.closed
      then |d.calls| > |c.calls| && d.calls[|c.calls|] == Send(c.sequence + 1, asked)
      else d.calls == c.calls && d.pending == Some(asked)
           && d.coalesced == c.coalesced + if c.pending.Some? then 1 else 0
  {
    var q := Queueing(c, instructions);
    if q.childSettled && q.inFlight.None? && !q.closed {
      StartSendsFirst(q, throws);
    }
  }

  // Settling sends what is pending, or closes; with a request in flight it waits.
  lemma SettleMeans(c: Control, throws: bool)
    requires !c.closed
    ensures var d := Step(c, ChildSettled, throws);
      && (c.inFlight.Some? ==> d == c.(childSettled := true))
      && (c.inFlight.None? && c.pending.None? ==> d.calls == c.calls + [Close] && d.closed)
      && (c.inFlight.None? && c.pending.Some? ==>
            |d.calls| > |c.calls| && d.calls[|c.calls|] == Send(c.sequence + 1, c.pending.value))
  {
    var s := c.(childSettled := true);
    if s.inFlight.None? && s.pending.Some? {
      StartSendsFirst(s, throws);
    }
  }

  // The request in flight is over when its response and the end have both come, or its response is a refusal. It failed
  // when it was refused or an end came with an error.
  lemma OverWhenBothCame(c: Control, e: Event, throws: bool)
    requires Invariant(c) && c.inFlight.Some? && !e.Queue? && !e.ChildSettled?
    ensures var f, d := c.inFlight.value, Observe(c, e, throws);
      var refused := e == Response(f.id, false);
      var over := refused || (e == Response(f.id, true) && f.endSeen) || (e.End? && f.responseSeen);
      && (over ==> |d.calls| > |c.calls| &&
                   d.calls[|c.calls|] == Finished(f.id, refused || f.failed || (e.End? && e.failed)))
      && (!over ==> d.calls == c.calls && d.pending == c.pending && d.inFlight == Some(
                      f.(responseSeen := f.responseSeen || e == Response(f.id, true), endSeen := f.endSeen || e.End?,
                         failed := f.failed || (e.End? && e.failed))))
  {
    var f := c.inFlight.value;
    FirstFinished(c, true, throws);
    match e
    case Response(id, success) => FirstFinished(c.(inFlight := Some(f.(responseSeen := true))), f.failed, throws);
    case End(failed) =>
      var both := f.failed || failed;
      FirstFinished(c.(inFlight := Some(f.(endSeen := true, failed := both))), both, throws);
    case _ =>
  }

  lemma FirstFinished(c: Control, failed: bool, throws: bool)
    requires c.inFlight.Some?
    ensures var d := Finish(c, failed, throws);
      |d.calls| > |c.calls| && d.calls[|c.calls|] == Finished(c.inFlight.value.id, failed)
  {
    var done := c.(inFlight := None, calls := c.calls + [Finished(c.inFlight.value.id, failed)]);
    StartSends(done, throws, if done.pending.Some? then done.pending.value else None);
  }

  // ----- the class -----

  class ChildCompactControl {
    var pending: Option<Option<string>>
    var inFlight: Option<InFlight>
    var childSettled: bool
    var closed: bool
    var sequence: nat
    var attempts: nat
    var coalesced: nat
    var calls: seq<Call>

    ghost function View(): Control
      reads this
    {
      Control(pending, inFlight, childSettled, closed, sequence, attempts, coalesced, calls)
    }

    constructor ()
      ensures View() == INITIAL && Invariant(View())
    {
      pending, inFlight, childSettled, closed, sequence, attempts, coalesced, calls :=
        None, None, false, false, 0, 0, 0, [];
    }

    method Queue(instructions: Option<string>, throws: bool)
      modifies this
      ensures View() == Enqueue(old(View()), instructions, throws)
    {
      if pending.Some? { coalesced := coalesced + 1; }
      pending := Some(if instructions == Some("") then None else instructions);
      if inFlight.Some? { return; }
      if childSettled { Start(throws); }
    }

    method OnChildSettled(throws: bool)
      modifies this
      ensures View() == SettleChild(old(View()), throws)
    {
      childSettled := true;
      if inFlight.Some? { return; }
      if pending.Some? { Start(throws); } else { CloseControl(); }
    }

    method ObserveFrame(e: Event, throws: bool)
      modifies this
      ensures View() == Observe(old(View()), e, throws)
    {
      if inFlight.None? { return; }
      match e {
        case Response(id, success) =>
          if id != inFlight.value.id { return; }
          if !success {
            FinishRequest(true, throws);
            return;
          }
          inFlight := Some(inFlight.value.(responseSeen := true));
          FinishWhenComplete(throws);
        case End(failed) =>
          inFlight := Some(inFlight.value.(endSeen := true, failed := inFlight.value.failed || failed));
          FinishWhenComplete(throws);
        case _ =>
      }
    }

    method Start(throws: bool)
      modifies this
      ensures View() == StartPending(old(View()), throws)
      decreases if pending.Some? then 1 else 0, 0
    {
      if pending.None? || inFlight.Some? || closed { return; }
      var instructions := pending.value;
      pending := None;
      sequence := sequence + 1;
      inFlight := Some(InFlight(sequence, false, false, false));
      attempts := attempts + 1;
      calls := calls + [Send(sequence, instructions)];
      if throws { FinishRequest(true, throws); }
    }

    method FinishRequest(failed: bool, throws: bool)
      modifies this
      ensures View() == Finish(old(View()), failed, throws)
      decreases if pending.Some? then 1 else 0, 1
    {
      if inFlight.None? { return; }
      var id := inFlight.value.id;
      inFlight := None;
      calls := calls + [Finished(id, failed)];
      if pending.Some? { Start(throws); } else { CloseControl(); }
    }

    method FinishWhenComplete(throws: bool)
      modifies this
      ensures View() == MaybeFinish(old(View()), throws)
    {
      if inFlight.None? || !inFlight.value.responseSeen || !inFlight.value.endSeen { return; }
      FinishRequest(inFlight.value.failed, throws);
    }

    method CloseControl()
      modifies this
      ensures View() == CloseOnce(old(View()))
    {
      if closed { return; }
      closed := true;
      calls := calls + [Close];
    }
  }
}
