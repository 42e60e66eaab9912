// Where to cut a session so that no tool call is separated from its result (src/compaction/hook.ts).
module CutClosure {
  import opened Basics

  // A session entry, with what the host library says of its context messages: whether it has any,
  // whether one starts a turn, whether one is not a tool result, and their estimated tokens.
  datatype Entry = Entry(
    id: string,
    compaction: bool,
    firstKeptEntryId: string,
    calls: seq<string>,
    result: Option<string>,
    inContext: bool,
    turnBoundary: bool,
    cutPoint: bool,
    tokens: nat)

  datatype Live = Live(entry: Entry, branchIndex: nat)

  datatype Span = Span(first: nat, last: nat, hasCall: bool, hasResult: bool)

  type Spans = map<string, Span>

  // ----- live entries -----

  function LiveFrom(entries: seq<Entry>, start: nat, end: nat): seq<Live>
    requires end <= |entries|
  {
    if end <= start then [] else
      var e := entries[end - 1];
      LiveFrom(entries, start, end - 1) + if !e.compaction && e.inContext then [Live(e, end - 1)] else []
  }

  function LastCompaction(entries: seq<Entry>): (i: int)
    ensures -1 <= i < |entries|
    ensures i >= 0 ==> entries[i].compaction
    ensures forall j :: i < j < |entries| ==> !entries[j].compaction
  {
    if entries == [] then -1
    else if entries[|entries| - 1].compaction then |entries| - 1
    else LastCompaction(entries[..|entries| - 1])
  }

  function IndexOfId(entries: seq<Entry>, id: string, from: nat): (i: int)
    requires from <= |entries|
    ensures i == -1 || (from <= i < |entries| && entries[i].id == id)
    ensures forall j :: from <= j < (if i < 0 then |entries| else i) ==> entries[j].id != id
    decreases |entries| - from
  {
    if from == |entries| then -1 else if entries[from].id == id then from else IndexOfId(entries, id, from + 1)
  }

  // The first entry that is live: the one kept by the last compaction, or the one after it.
  function LiveStart(entries: seq<Entry>): (start: nat)
    ensures start <= |entries|
  {
    var last := LastCompaction(entries);
    if last < 0 then 0
    else if entries[last].firstKeptEntryId != "" && IndexOfId(entries, entries[last].firstKeptEntryId, 0) >= 0
    then IndexOfId(entries, entries[last].firstKeptEntryId, 0)
    else last + 1
  }

  function LiveEntries(entries: seq<Entry>): seq<Live> {
    LiveFrom(entries, LiveStart(entries), |entries|)
  }

  method CollectLive(entries: seq<Entry>) returns (live: seq<Live>)
    ensures live == LiveEntries(entries)
  {
    live := [];
    var start := LiveStart(entries);
    for index := start to |entries|
      invariant live == LiveFrom(entries, start, index)
    {
      if entries[index].compaction { continue; }
      if !entries[index].inContext { continue; }
      live := live + [Live(entries[index], index)];
    }
  }

  // In branch order, and faithful to the branch.
  ghost predicate Ordered(entries: seq<Entry>, live: seq<Live>) {
    && (forall i :: 0 <= i < |live| ==>
         live[i].branchIndex < |entries| && entries[live[i].branchIndex] == live[i].entry)
    && (forall i, j :: 0 <= i < j < |live| ==> live[i].branchIndex < live[j].branchIndex)
  }

  lemma {:induction false} LiveIsOrdered(entries: seq<Entry>, start: nat, end: nat)
    requires end <= |entries|
    ensures Ordered(entries, LiveFrom(entries, start, end))
    ensures forall i :: 0 <= i < |LiveFrom(entries, start, end)| ==>
      start <= LiveFrom(entries, start, end)[i].branchIndex < end
    ensures forall k :: start <= k < end && !entries[k].compaction && entries[k].inContext
              ==> Live(entries[k], k) in LiveFrom(entries, start, end)
  {
    if start < end {
      LiveIsOrdered(entries, start, end - 1);
    }
  }

  // ----- what is live, without looking for it -----

  ghost predicate IsLastCompaction(entries: seq<Entry>, c: int) {
    0 <= c < |entries| && entries[c].compaction && forall j :: c < j < |entries| ==> !entries[j].compaction
  }

  // p is the first entry with this id.
  ghost predicate IsFirstNamed(entries: seq<Entry>, id: string, p: int) {
    0 <= p < |entries| && entries[p].id == id && forall j :: 0 <= j < p ==> entries[j].id != id
  }

  ghost predicate IsNamed(entries: seq<Entry>, id: string) {
    id != "" && exists p :: IsFirstNamed(entries, id, p)
  }

  // The last compaction, if there is one, left entry k alone: k is not before the first entry with the id it names, or,
  // when it names none of them, k comes after it.
  ghost predicate LeftAlone(entries: seq<Entry>, k: int) {
    forall c :: IsLastCompaction(entries, c) ==>
      var id := entries[c].firstKeptEntryId;
      if IsNamed(entries, id) then exists p :: IsFirstNamed(entries, id, p) && p <= k else c < k
  }

  ghost predicate IsLive(entries: seq<Entry>, k: int) {
    0 <= k < |entries| && entries[k].inContext && !entries[k].compaction && LeftAlone(entries, k)
  }

  lemma OneFirstNamed(entries: seq<Entry>, id: string, p: int, q: int)
    requires IsFirstNamed(entries, id, p) && IsFirstNamed(entries, id, q)
    ensures p == q
  {}

  lemma NamedIsFound(entries: seq<Entry>, id: string)
    ensures IsNamed(entries, id) <==> id != "" && IndexOfId(entries, id, 0) >= 0
    ensures IndexOfId(entries, id, 0) >= 0 ==> IsFirstNamed(entries, id, IndexOfId(entries, id, 0))
  {
    var i := IndexOfId(entries, id, 0);
    if i >= 0 {
      assert IsFirstNamed(entries, id, i);
    }
  }

  lemma LeftAloneFromStart(entries: seq<Entry>, k: int)
    requires 0 <= k < |entries|
    ensures LeftAlone(entries, k) <==> LiveStart(entries) <= k
  {
    hide IsFirstNamed, IsNamed, IndexOfId, LastCompaction;
    var last := LastCompaction(entries);
    forall c | IsLastCompaction(entries, c) ensures c == last {
      OneLastCompaction(entries, c, last);
    }
    if last >= 0 {
      assert IsLastCompaction(entries, last);
      var id := entries[last].firstKeptEntryId;
      NamedIsFound(entries, id);
      if IsNamed(entries, id) {
        var i := IndexOfId(entries, id, 0);
        if p :| IsFirstNamed(entries, id, p) && p <= k {
          OneFirstNamed(entries, id, p, i);
        }
      }
    }
  }

  lemma OneLastCompaction(entries: seq<Entry>, c: int, last: int)
    requires IsLastCompaction(entries, c) && last == LastCompaction(entries)
    ensures c == last
  {}

  // The live entries are these, in branch order.
  lemma LiveExactly(entries: seq<Entry>)
    ensures Ordered(entries, LiveEntries(entries))
    ensures forall k: nat :: k < |entries| ==> (Live(entries[k], k) in LiveEntries(entries) <==> IsLive(entries, k))
  {
    var live := LiveEntries(entries);
    LiveIsOrdered(entries, LiveStart(entries), |entries|);
    hide LiveFrom, LiveStart, LeftAlone;
    forall k: nat | k < |entries| ensures Live(entries[k], k) in live <==> IsLive(entries, k) {
      LeftAloneFromStart(entries, k);
      if Live(entries[k], k) in live {
        var i :| 0 <= i < |live| && live[i] == Live(entries[k], k);
        LiveIsRight(entries, LiveStart(entries), |entries|, i);
      }
    }
  }

  lemma {:induction false} LiveIsRight(entries: seq<Entry>, start: nat, end: nat, i: nat)
    requires end <= |entries| && i < |LiveFrom(entries, start, end)|
    ensures var l := LiveFrom(entries, start, end)[i]; l.entry.inContext && !l.entry.compaction
  {
    if start < end && i < |LiveFrom(entries, start, end - 1)| {
      LiveIsRight(entries, start, end - 1, i);
    }
  }

  lemma PlaceOf(entries: seq<Entry>, k: int) returns (i: nat)
    requires IsLive(entries, k)
    ensures i < |LiveEntries(entries)| && LiveEntries(entries)[i].branchIndex == k
  {
    LiveExactly(entries);
    assert Live(entries[k], k) in LiveEntries(entries);
    i :| i < |LiveEntries(entries)| && LiveEntries(entries)[i] == Live(entries[k], k);
  }

  lemma SomethingLive(entries: seq<Entry>)
    ensures (exists k: int :: IsLive(entries, k)) ==> LiveEntries(entries) != []
  {
    if k: int :| IsLive(entries, k) {
      var _ := PlaceOf(entries, k);
    }
  }

  // The live entries before `end`.
  ghost function LiveBefore(entries: seq<Entry>, end: int): set<int> {
    set k | 0 <= k < |entries| && k < end && IsLive(entries, k)
  }

  lemma {:induction false} IndexSet(live: seq<Live>, n: nat)
    requires n <= |live| && forall i, j :: 0 <= i < j < |live| ==> live[i].branchIndex < live[j].branchIndex
    ensures |set i | 0 <= i < n :: live[i].branchIndex as int| == n
  {
    var these := set i | 0 <= i < n :: live[i].branchIndex as int;
    if n == 0 {
      assert these == {};
    } else {
      IndexSet(live, n - 1);
      var fewer := set i | 0 <= i < n - 1 :: live[i].branchIndex as int;
      assert these == fewer + {live[n - 1].branchIndex};
      assert live[n - 1].branchIndex !in fewer;
    }
  }

  // The first n live entries are those before a point, when it lies between them and the others.
  lemma CountBefore(entries: seq<Entry>, n: nat, end: int)
    requires var live := LiveEntries(entries);
      n <= |live| && forall i :: 0 <= i < |live| ==> (live[i].branchIndex < end <==> i < n)
    ensures |LiveBefore(entries, end)| == n
  {
    var live := LiveEntries(entries);
    LiveExactly(entries);
    IndexSet(live, n);
    hide IsLive, LiveEntries;
    var these := set i | 0 <= i < n :: live[i].branchIndex as int;
    forall k ensures k in these <==> k in LiveBefore(entries, end) {
      if k in LiveBefore(entries, end) {
        assert Live(entries[k], k) in live;
        var i :| 0 <= i < |live| && live[i] == Live(entries[k], k);
        assert k in these;
      }
      if k in these {
        var i :| 0 <= i < n && live[i].branchIndex == k;
        assert live[i] in live;
      }
    }
    assert these == LiveBefore(entries, end);
  }

  // ----- call/result spans -----

  function Record(spans: Spans, id: string, index: nat, call: bool): Spans {
    if id == "" then spans
    else if id !in spans then spans[id := Span(index, index, call, !call)]
    else
      var s := spans[id];
      spans[id := Span(if index < s.first then index else s.first, if index > s.last then index else s.last,
                       s.hasCall || call, s.hasResult || !call)]
  }

  function RecordCalls(spans: Spans, ids: seq<string>, index: nat): Spans {
    if ids == [] then spans else Record(RecordCalls(spans, ids[..|ids| - 1], index), ids[|ids| - 1], index, true)
  }

  function RecordEntry(spans: Spans, e: Entry, index: nat): Spans {
    var called := RecordCalls(spans, e.calls, index);
    if e.result.Some? then Record(called, e.result.value, index, false) else called
  }

  function SpansOf(entries: seq<Entry>): Spans {
    if entries == [] then map[]
    else RecordEntry(SpansOf(entries[..|entries| - 1]), entries[|entries| - 1], |entries| - 1)
  }

  method CallResultSpans(entries: seq<Entry>) returns (spans: Spans)
    ensures spans == SpansOf(entries)
  {
    spans := map[];
    for index := 0 to |entries|
      invariant spans == SpansOf(entries[..index])
    {
      assert entries[..index + 1][..index] == entries[..index];
      ghost var before := spans;
      var calls := entries[index].calls;
      for k := 0 to |calls|
        invariant spans == RecordCalls(before, calls[..k], index)
      {
        assert calls[..k + 1][..k] == calls[..k];
        spans := Record(spans, calls[k], index, true);
      }
      assert calls[..|calls|] == calls;
      if entries[index].result.Some? {
        spans := Record(spans, entries[index].result.value, index, false);
      }
    }
    assert entries[..|entries|] == entries;
  }

  ghost predicate CallAt(entries: seq<Entry>, id: string, i: int) {
    0 <= i < |entries| && id in entries[i].calls
  }

  ghost predicate ResultAt(entries: seq<Entry>, id: string, i: int) {
    0 <= i < |entries| && entries[i].result == Some(id)
  }

  ghost predicate Touches(entries: seq<Entry>, id: string, i: int) {
    CallAt(entries, id, i) || ResultAt(entries, id, i)
  }

  ghost predicate Mentioned(entries: seq<Entry>, id: string) {
    exists i :: Touches(entries, id, i)
  }

  // A span reaches from the first to the last entry that mentions its id, and knows what they are.
  ghost predicate SpanIsExact(entries: seq<Entry>, id: string, s: Span) {
    && Touches(entries, id, s.first) && Touches(entries, id, s.last)
    && (forall i :: Touches(entries, id, i) ==> s.first <= i <= s.last)
    && (s.hasCall <==> exists i :: CallAt(entries, id, i))
    && (s.hasResult <==> exists i :: ResultAt(entries, id, i))
  }

  ghost predicate ExactFor(entries: seq<Entry>, spans: Spans, id: string) {
    && (id in spans <==> id != "" && Mentioned(entries, id))
    && (id in spans ==> SpanIsExact(entries, id, spans[id]))
  }

  ghost predicate SpansAreExact(entries: seq<Entry>, spans: Spans) {
    forall id :: ExactFor(entries, spans, id)
  }

  // Both sessions mention id in the same places.
  ghost predicate SameMentions(a: seq<Entry>, b: seq<Entry>, id: string) {
    forall i :: (CallAt(a, id, i) <==> CallAt(b, id, i)) && (ResultAt(a, id, i) <==> ResultAt(b, id, i))
  }

  lemma SameMentionsSameSpan(a: seq<Entry>, b: seq<Entry>, spans: Spans, id: string)
    requires SameMentions(a, b, id) && ExactFor(a, spans, id)
    ensures ExactFor(b, spans, id)
  {
    assert forall i :: Touches(a, id, i) <==> Touches(b, id, i);
  }

  // b mentions id where a does, and also at its last entry.
  ghost predicate OneMore(a: seq<Entry>, b: seq<Entry>, id: string, index: nat, call: bool) {
    && index == |b| - 1 && |a| <= |b|
    && (forall i :: CallAt(b, id, i) <==> CallAt(a, id, i) || (call && i == index))
    && (forall i :: ResultAt(b, id, i) <==> ResultAt(a, id, i) || (!call && i == index))
  }

  lemma OneMoreMention(a: seq<Entry>, b: seq<Entry>, spans: Spans, id: string, index: nat, call: bool)
    requires OneMore(a, b, id, index, call) && ExactFor(a, spans, id) && id != ""
    ensures ExactFor(b, Record(spans, id, index, call), id)
  {
    var r := Record(spans, id, index, call);
    assert forall i :: Touches(b, id, i) <==> Touches(a, id, i) || i == index;
    assert Touches(b, id, index);
    assert call ==> CallAt(b, id, index);
    assert !call ==> ResultAt(b, id, index);
    assert forall i {:trigger CallAt(a, id, i)} :: CallAt(a, id, i) ==> CallAt(b, id, i) && Touches(a, id, i);
    assert forall i {:trigger ResultAt(a, id, i)} :: ResultAt(a, id, i) ==> ResultAt(b, id, i) && Touches(a, id, i);
  }

  lemma RecordIsExact(a: seq<Entry>, b: seq<Entry>, spans: Spans, id: string, index: nat, call: bool)
    requires SpansAreExact(a, spans)
    requires OneMore(a, b, id, index, call)
    requires forall x :: x != id ==> SameMentions(a, b, x)
    ensures SpansAreExact(b, Record(spans, id, index, call))
  {
    var r := Record(spans, id, index, call);
    forall x ensures ExactFor(b, r, x) {
      if x != id {
        assert ExactFor(a, spans, x);
        SameMentionsSameSpan(a, b, spans, x);
      } else if id != "" {
        assert ExactFor(a, spans, id);
        OneMoreMention(a, b, spans, id, index, call);
      } else {
        assert ExactFor(a, spans, "");
      }
    }
  }

  // The entries with the last one reduced to its first k calls, and perhaps its result.
  ghost function Partly(entries: seq<Entry>, k: nat, withResult: bool): seq<Entry>
    requires entries != [] && k <= |entries[|entries| - 1].calls|
  {
    var e := entries[|entries| - 1];
    entries[..|entries| - 1] + [e.(calls := e.calls[..k], result := if withResult then e.result else None)]
  }

  lemma {:induction false} CallsAreExact(entries: seq<Entry>, k: nat)
    requires entries != [] && k <= |entries[|entries| - 1].calls|
    requires SpansAreExact(entries[..|entries| - 1], SpansOf(entries[..|entries| - 1]))
    ensures SpansAreExact(Partly(entries, k, false),
      RecordCalls(SpansOf(entries[..|entries| - 1]), entries[|entries| - 1].calls[..k], |entries| - 1))
  {
    var index, calls := |entries| - 1, entries[|entries| - 1].calls;
    var init := entries[..index];
    if k == 0 {
      var p := Partly(entries, 0, false);
      assert calls[..0] == [];
      forall x ensures ExactFor(p, SpansOf(init), x) {
        assert ExactFor(init, SpansOf(init), x);
        SameMentionsSameSpan(init, p, SpansOf(init), x);
      }
    } else {
      CallsAreExact(entries, k - 1);
      assert calls[..k][..k - 1] == calls[..k - 1];
      assert calls[..k] == calls[..k - 1] + [calls[k - 1]];
      RecordIsExact(Partly(entries, k - 1, false), Partly(entries, k, false),
                    RecordCalls(SpansOf(init), calls[..k - 1], index), calls[k - 1], index, true);
    }
  }

  // The loop finds, for every id, exactly its first and last mention and its kinds.
  lemma {:induction false} SpansAreExactly(entries: seq<Entry>)
    ensures SpansAreExact(entries, SpansOf(entries))
  {
    if entries != [] {
      var index, e := |entries| - 1, entries[|entries| - 1];
      SpansAreExactly(entries[..index]);
      CallsAreExact(entries, |e.calls|);
      assert e.calls[..|e.calls|] == e.calls;
      var before := Partly(entries, |e.calls|, false);
      assert Partly(entries, |e.calls|, true) == entries;
      if e.result.None? {
        assert before == entries;
      } else {
        RecordIsExact(before, entries, RecordCalls(SpansOf(entries[..index]), e.calls, index), e.result.value, index,
                      false);
      }
    } else {
      assert forall id :: ExactFor(entries, SpansOf(entries), id);
    }
  }

  predicate SpanCrosses(s: Span, boundary: int) {
    s.hasCall && s.hasResult && s.first < boundary && s.last >= boundary
  }

  predicate ClosureSafe(spans: Spans, boundary: int) {
    forall id :: id in spans ==> !SpanCrosses(spans[id], boundary)
  }

  // A call and a result of one id lie on different sides of the boundary.
  ghost predicate Separates(entries: seq<Entry>, id: string, i: int, j: int, boundary: int) {
    id != "" && CallAt(entries, id, i) && ResultAt(entries, id, j) && (i < boundary) != (j < boundary)
  }

  // A boundary is safe exactly when it separates no call from a result.
  lemma SafeMeansUnseparated(entries: seq<Entry>, boundary: int)
    ensures ClosureSafe(SpansOf(entries), boundary) <==> !exists id, i, j :: Separates(entries, id, i, j, boundary)
  {
    var spans := SpansOf(entries);
    SpansAreExactly(entries);
    if id, i, j :| Separates(entries, id, i, j, boundary) {
      assert ExactFor(entries, spans, id);
      assert Touches(entries, id, i) && Touches(entries, id, j);
      assert SpanCrosses(spans[id], boundary);
    }
    if id :| id in spans && SpanCrosses(spans[id], boundary) {
      var s := spans[id];
      assert ExactFor(entries, spans, id);
      var c :| CallAt(entries, id, c);
      var r :| ResultAt(entries, id, r);
      var i := if c < boundary then s.last else s.first;
      assert Touches(entries, id, i);
      if CallAt(entries, id, i) && (r < boundary) == (c < boundary) {
        assert Separates(entries, id, i, r, boundary);
      } else if (r < boundary) != (c < boundary) {
        assert Separates(entries, id, c, r, boundary);
      } else {
        assert Separates(entries, id, c, i, boundary);
      }
    }
  }

  // ----- closing a cut -----

  // The last live turn boundary at or before a branch index, or -1.
  method PreviousBoundaryAtOrBefore(live: seq<Live>, branchIndex: int) returns (r: int)
    ensures -1 <= r < |live|
    ensures r >= 0 ==> live[r].branchIndex <= branchIndex && live[r].entry.turnBoundary
    ensures forall j :: r < j < |live| ==> !(live[j].branchIndex <= branchIndex && live[j].entry.turnBoundary)
  {
    r := |live| - 1;
    while r >= 0
      invariant -1 <= r < |live|
      invariant forall j :: r < j < |live| ==> !(live[j].branchIndex <= branchIndex && live[j].entry.turnBoundary)
    {
      if live[r].branchIndex <= branchIndex && live[r].entry.turnBoundary { return; }
      r := r - 1;
    }
  }

  method EarliestCrossing(spans: Spans, boundary: int) returns (earliest: int)
    ensures earliest <= boundary
    ensures earliest == boundary <==> ClosureSafe(spans, boundary)
    ensures earliest < boundary ==>
      exists id :: id in spans && SpanCrosses(spans[id], boundary) && spans[id].first == earliest
    ensures forall id :: id in spans && SpanCrosses(spans[id], boundary) ==> earliest <= spans[id].first
  {
    earliest := boundary;
    var rest := spans.Keys;
    while rest != {}
      invariant rest <= spans.Keys && earliest <= boundary
      invariant earliest < boundary ==>
        exists id :: id in spans && SpanCrosses(spans[id], boundary) && spans[id].first == earliest
      invariant forall id :: id in spans.Keys - rest && SpanCrosses(spans[id], boundary) ==> earliest <= spans[id].first
      decreases rest
    {
      var id :| id in rest;
      rest := rest - {id};
      if SpanCrosses(spans[id], boundary) && spans[id].first < earliest {
        earliest := spans[id].first;
      }
    }
  }

  // A live index at which the session may be cut: the candidate itself, or a turn boundary, that crosses nothing.
  ghost predicate Closed(spans: Spans, live: seq<Live>, candidate: nat, j: int) {
    0 < j <= candidate < |live| && (j == candidate || live[j].entry.turnBoundary)
      && ClosureSafe(spans, live[j].branchIndex)
  }

  // The greatest closed cut at or before the candidate; 0 when there is none.
  method CloseCut(entries: seq<Entry>, live: seq<Live>, candidate: nat) returns (cut: nat)
    requires Ordered(entries, live) && candidate < |live|
    ensures cut == 0 || Closed(SpansOf(entries), live, candidate, cut)
    ensures forall j :: cut < j <= candidate ==> !Closed(SpansOf(entries), live, candidate, j)
  {
    var spans := CallResultSpans(entries);
    var liveIndex := candidate;
    while liveIndex > 0
      invariant 0 <= liveIndex <= candidate
      invariant liveIndex == candidate || live[liveIndex].entry.turnBoundary
      invariant forall j :: liveIndex < j <= candidate ==> !Closed(spans, live, candidate, j)
    {
      var boundary := live[liveIndex].branchIndex;
      var earliest := EarliestCrossing(spans, boundary);
      if earliest == boundary { return liveIndex; }
      var closed := PreviousBoundaryAtOrBefore(live, earliest);
      ghost var id :| id in spans && SpanCrosses(spans[id], boundary) && spans[id].first == earliest;
      forall j | closed < j <= liveIndex ensures !Closed(spans, live, candidate, j) {
        SkippedIsCrossed(spans, live, candidate, liveIndex, j, id);
      }
      if closed < 0 || closed >= liveIndex { return 0; }
      liveIndex := closed;
    }
    cut := 0;
  }

  // A boundary between the start of a crossing span and the boundary it crosses is crossed too.
  lemma SkippedIsCrossed(spans: Spans, live: seq<Live>, candidate: nat, liveIndex: nat, j: int, id: string)
    requires forall a, b :: 0 <= a < b < |live| ==> live[a].branchIndex < live[b].branchIndex
    requires 0 <= j <= liveIndex <= candidate < |live|
    requires id in spans && SpanCrosses(spans[id], live[liveIndex].branchIndex)
    requires live[j].entry.turnBoundary ==> live[j].branchIndex > spans[id].first
    ensures !Closed(spans, live, candidate, j)
  {
    if Closed(spans, live, candidate, j) {
      assert SpanCrosses(spans[id], live[j].branchIndex);
    }
  }

  // ----- cuts -----

  // The number of live entries summarized, and the branch index of the first entry kept, if any is.
  datatype Cut = Nothing | Cut(summarized: nat, firstKept: Option<nat>)

  function Whole(live: seq<Live>): Cut {
    if live == [] then Nothing else Cut(|live|, None)
  }

  // No tool call or result is cut off from its counterpart, and the entries kept are those after the ones summarized.
  ghost predicate Clean(entries: seq<Entry>, live: seq<Live>, cut: Cut) {
    cut.Cut? && cut.firstKept.Some? ==>
      && 0 < cut.summarized < |live| && cut.firstKept.value == live[cut.summarized].branchIndex
      && cut.firstKept.value > LastCompaction(entries)
      && (forall i :: 0 <= i < |live| ==> (live[i].branchIndex < cut.firstKept.value <==> i < cut.summarized))
      && !exists id, i, j :: Separates(entries, id, i, j, cut.firstKept.value)
  }

  // Every live entry is summarized or kept: those before the first one kept are the ones summarized.
  ghost predicate LosesNothing(entries: seq<Entry>, cut: Cut) {
    match cut
    case Nothing => forall k: int :: !IsLive(entries, k)
    case Cut(n, None) => 0 < n == |LiveBefore(entries, |entries|)|
    case Cut(n, Some(first)) => 0 < n == |LiveBefore(entries, first)| && IsLive(entries, first)
  }

  lemma CutLosesNothing(entries: seq<Entry>, cut: Cut)
    requires Clean(entries, LiveEntries(entries), cut) && (cut == Nothing <==> LiveEntries(entries) == [])
    requires cut.Cut? && cut.firstKept.None? ==> cut.summarized == |LiveEntries(entries)|
    ensures LosesNothing(entries, cut)
  {
    var live := LiveEntries(entries);
    LiveExactly(entries);
    hide LiveEntries, IsLive;
    match cut
    case Nothing => SomethingLive(entries);
    case Cut(n, None) => CountBefore(entries, n, |entries|);
    case Cut(n, Some(first)) =>
      CountBefore(entries, n, first);
      assert live[n] in live;
  }

  method LastBoundaryIndex(live: seq<Live>) returns (r: int)
    ensures -1 <= r < |live|
    ensures r >= 0 ==> live[r].entry.turnBoundary
    ensures forall j :: r < j < |live| ==> !live[j].entry.turnBoundary
  {
    r := |live| - 1;
    while r >= 0
      invariant -1 <= r < |live|
      invariant forall j :: r < j < |live| ==> !live[j].entry.turnBoundary
    {
      if live[r].entry.turnBoundary { return; }
      r := r - 1;
    }
  }

  // A turn boundary after the last compaction that separates no call from its result, with something before it.
  ghost predicate PlainFeasible(entries: seq<Entry>, live: seq<Live>, j: nat) {
    && 1 <= j < |live| && live[j].entry.turnBoundary && live[j].branchIndex > LastCompaction(entries)
    && !exists id, i, k :: Separates(entries, id, i, k, live[j].branchIndex)
  }

  // The cut without a token budget: the last turn boundary, closed. It is the last feasible one; when there is none
  // everything is summarized.
  method ComputePlainCut(entries: seq<Entry>) returns (cut: Cut)
    ensures cut == Nothing <==> LiveEntries(entries) == []
    ensures Clean(entries, LiveEntries(entries), cut)
    ensures cut.Cut? && cut.firstKept.None? ==> cut.summarized == |LiveEntries(entries)|
    ensures LosesNothing(entries, cut)
    ensures cut.Cut? && cut.firstKept.Some? ==> PlainFeasible(entries, LiveEntries(entries), cut.summarized)
    ensures cut.Cut? ==> forall j: nat :: (cut.firstKept.Some? ==> cut.summarized < j) ==>
      !PlainFeasible(entries, LiveEntries(entries), j)
  {
    var live := CollectLive(entries);
    LiveIsOrdered(entries, LiveStart(entries), |entries|);
    hide LosesNothing;
    CutLosesNothing(entries, Whole(live));
    if |live| == 0 { return Nothing; }
    var last := LastBoundaryIndex(live);
    if last <= 0 { return Whole(live); }
    var closed := CloseCut(entries, live, last);
    forall j: nat | closed < j ensures !PlainFeasible(entries, live, j) {
      if j <= last {
        NotClosedIsCrossed(entries, live, last, j);
      }
    }
    hide PlainFeasible;
    if closed <= 0 || live[closed].branchIndex <= LastCompaction(entries) {
      EarlierIsOlder(entries, live, closed);
      return Whole(live);
    }
    ClosedIsFeasible(entries, live, last, closed);
    cut := Cut(closed, Some(live[closed].branchIndex));
    CutLosesNothing(entries, cut);
  }

  lemma NotClosedIsCrossed(entries: seq<Entry>, live: seq<Live>, last: nat, j: nat)
    requires j <= last < |live| && !Closed(SpansOf(entries), live, last, j)
    ensures !PlainFeasible(entries, live, j)
  {
    SafeMeansUnseparated(entries, live[j].branchIndex);
  }

  lemma ClosedIsFeasible(entries: seq<Entry>, live: seq<Live>, last: nat, j: nat)
    requires 1 <= j < |live| && Closed(SpansOf(entries), live, last, j) && live[j].branchIndex > LastCompaction(entries)
    requires live[last].entry.turnBoundary
    ensures PlainFeasible(entries, live, j)
  {
    SafeMeansUnseparated(entries, live[j].branchIndex);
  }

  // At or before a boundary no newer than the last compaction, none is.
  lemma EarlierIsOlder(entries: seq<Entry>, live: seq<Live>, closed: nat)
    requires Ordered(entries, live) && closed < |live|
    requires closed == 0 || live[closed].branchIndex <= LastCompaction(entries)
    ensures forall j: nat :: j <= closed ==> !PlainFeasible(entries, live, j)
  {
    forall j: nat | j <= closed ensures !PlainFeasible(entries, live, j) {
      assert j < closed ==> live[j].branchIndex < live[closed].branchIndex;
    }
  }
}
