// The counting semaphore with abortable waiters (src/agents/semaphore.ts).
module Semaphore {

  // Requests are numbered in the order of the calls to acquire. A granted request owns a release function,
  // whose `released` flag is permits[request]; the other requests wait or were aborted.
  datatype State = State(
    limit: nat,
    active: nat,
    waiters: seq<nat>,
    permits: map<nat, bool>,
    next: nat,
    aborted: set<nat>,
    grants: seq<nat>)

  datatype Event = Acquire(alreadyAborted: bool) | Abort(request: nat) | Release(request: nat)

  function Init(limit: nat): State {
    State(limit, 0, [], map[], 0, {}, [])
  }

  function Grant(s: State, request: nat): State {
    s.(permits := s.permits[request := false], grants := s.grants + [request])
  }

  function AcquireStep(s: State, alreadyAborted: bool): State {
    var t := s.(next := s.next + 1);
    if alreadyAborted then t.(aborted := t.aborted + {s.next})
    else if s.active < s.limit then Grant(t.(active := s.active + 1), s.next)
    else t.(waiters := s.waiters + [s.next])
  }

  function Without(q: seq<nat>, request: nat): seq<nat> {
    if q == [] then [] else if q[0] == request then q[1..] else [q[0]] + Without(q[1..], request)
  }

  // The abort handler of a waiter; it is gone once the waiter was granted or aborted.
  function AbortStep(s: State, request: nat): State {
    if request in s.waiters
    then s.(waiters := Without(s.waiters, request), aborted := s.aborted + {request})
    else s
  }

  // Calling the release function of a granted request, perhaps again.
  function ReleaseStep(s: State, request: nat): State {
    if request !in s.permits || s.permits[request] then s
    else
      var t := s.(permits := s.permits[request := true]);
      if t.waiters != [] then Grant(t.(waiters := t.waiters[1..]), t.waiters[0])
      else t.(active := if t.active > 0 then t.active - 1 else 0)
  }

  function Step(s: State, e: Event): State {
    match e
    case Acquire(a) => AcquireStep(s, a)
    case Abort(r) => AbortStep(s, r)
    case Release(r) => ReleaseStep(s, r)
  }

  // The requests whose permit is outstanding.
  function Held(s: State): set<nat> {
    set r | r in s.permits && !s.permits[r]
  }

  ghost predicate Increasing(q: seq<nat>) {
    forall i, j :: 0 <= i < j < |q| ==> q[i] < q[j]
  }

  // Outstanding permits are what `active` counts and are within the limit; requests wait only when all are out.
  ghost predicate Counted(s: State) {
    |Held(s)| == s.active <= s.limit && (s.waiters != [] ==> s.active == s.limit)
  }

  // Grants and waiters are in order of arrival, and every grant came before every waiter.
  ghost predicate InOrder(s: State) {
    && Increasing(s.grants) && Increasing(s.waiters)
    && (forall i, j :: 0 <= i < |s.grants| && 0 <= j < |s.waiters| ==> s.grants[i] < s.waiters[j])
  }

  // Every request is granted, waiting or aborted, and only one of these.
  ghost predicate Accounted(s: State) {
    && (forall r: nat :: r in s.permits <==> r in s.grants)
    && (forall r: nat :: r in s.grants ==> r < s.next && r !in s.aborted)
    && (forall r: nat :: r in s.waiters ==> r < s.next && r !in s.aborted)
    && (forall r: nat :: r < s.next ==> r in s.grants || r in s.waiters || r in s.aborted)
    && (forall r: nat :: r in s.aborted ==> r < s.next)
  }

  ghost predicate Invariant(s: State) {
    Counted(s) && InOrder(s) && Accounted(s)
  }

  lemma {:induction false} WithoutFacts(q: seq<nat>, request: nat)
    requires Increasing(q) && request in q
    ensures Increasing(Without(q, request))
    ensures forall r :: r in Without(q, request) <==> r in q && r != request
  {
    var tail := q[1..];
    forall r | r in tail ensures q[0] < r {
      var j :| 0 <= j < |tail| && tail[j] == r;
      assert q[j + 1] == r;
    }
    assert q == [q[0]] + tail;
    if q[0] != request {
      WithoutFacts(tail, request);
      IncreasingWith(q[0], Without(tail, request));
    }
  }

  lemma IncreasingWith(x: nat, w: seq<nat>)
    requires Increasing(w) && forall r :: r in w ==> x < r
    ensures Increasing([x] + w)
  {
    forall i, j | 0 <= i < j < |w| + 1 ensures ([x] + w)[i] < ([x] + w)[j] {
      assert w[j - 1] in w;
    }
  }

  lemma GrantHeld(s: State, request: nat)
    requires request !in s.permits
    ensures Held(Grant(s, request)) == Held(s) + {request}
    ensures |Held(Grant(s, request))| == |Held(s)| + 1
  {
    assert Held(Grant(s, request)) == Held(s) + {request};
  }

  lemma WaitingIsNotGranted(s: State, r: nat)
    requires Invariant(s) && r in s.waiters
    ensures r !in s.grants
  {
    var j :| 0 <= j < |s.waiters| && s.waiters[j] == r;
    forall i | 0 <= i < |s.grants| ensures s.grants[i] != r {
      assert s.grants[i] < s.waiters[j];
    }
  }

  lemma ElementsAreIn(q: seq<nat>)
    ensures forall i :: 0 <= i < |q| ==> q[i] in q
  {}

  lemma AcquireKeeps(s: State, alreadyAborted: bool)
    requires Invariant(s)
    ensures Invariant(AcquireStep(s, alreadyAborted))
  {
    ElementsAreIn(s.grants);
    ElementsAreIn(s.waiters);
    assert s.next !in s.grants && s.next !in s.waiters;
    if alreadyAborted {
      assert Held(AcquireStep(s, alreadyAborted)) == Held(s);
    } else if s.active < s.limit {
      AcquireGrants(s);
    } else {
      AcquireWaits(s);
    }
  }

  lemma AcquireGrants(s: State)
    requires Invariant(s) && s.active < s.limit && s.next !in s.grants
    ensures Invariant(AcquireStep(s, false))
  {
    var t := AcquireStep(s, false);
    ElementsAreIn(s.grants);
    GrantHeld(s, s.next);
    assert Held(t) == Held(Grant(s, s.next));
    assert forall r: nat :: r in t.grants <==> r in s.grants || r == s.next;
  }

  lemma AcquireWaits(s: State)
    requires Invariant(s) && s.active == s.limit
    ensures Invariant(AcquireStep(s, false))
  {
    var t := AcquireStep(s, false);
    ElementsAreIn(s.grants);
    ElementsAreIn(s.waiters);
    assert Held(t) == Held(s);
    assert forall r: nat :: r in t.waiters <==> r in s.waiters || r == s.next;
  }

  lemma AbortKeeps(s: State, request: nat)
    requires Invariant(s)
    ensures Invariant(AbortStep(s, request))
  {
    if request in s.waiters {
      var t := AbortStep(s, request);
      WithoutFacts(s.waiters, request);
      assert Held(t) == Held(s);
      WaitingIsNotGranted(s, request);
      forall i, j | 0 <= i < |t.grants| && 0 <= j < |t.waiters| ensures t.grants[i] < t.waiters[j] {
        assert t.waiters[j] in s.waiters;
      }
    }
  }

  lemma ReleaseKeeps(s: State, request: nat)
    requires Invariant(s)
    ensures Invariant(ReleaseStep(s, request))
  {
    if request in s.permits && !s.permits[request] {
      assert Held(s.(permits := s.permits[request := true])) == Held(s) - {request};
      if s.waiters != [] {
        ReleaseToWaiter(s, request);
      }
    }
  }

  lemma ReleaseToWaiter(s: State, request: nat)
    requires Invariant(s) && request in Held(s) && s.waiters != []
    ensures Invariant(ReleaseStep(s, request))
  {
    var t, w := s.(permits := s.permits[request := true], waiters := s.waiters[1..]), s.waiters[0];
    ElementsAreIn(s.waiters);
    WaitingIsNotGranted(s, w);
    assert Held(t) == Held(s) - {request};
    GrantHeld(t, w);
    assert Grant(t, w) == ReleaseStep(s, request);
    PassedInOrder(s, t, w);
    PassedAccounted(s, t, w);
  }

  lemma PassedInOrder(s: State, t: State, w: nat)
    requires InOrder(s) && s.waiters != [] && w == s.waiters[0] && t.waiters == s.waiters[1..] && t.grants == s.grants
    ensures InOrder(Grant(t, w))
  {}

  lemma PassedAccounted(s: State, t: State, w: nat)
    requires Accounted(s) && s.waiters != [] && w == s.waiters[0] && w in s.waiters && t.waiters == s.waiters[1..]
    requires t.grants == s.grants && t.permits.Keys == s.permits.Keys && t.next == s.next && t.aborted == s.aborted
    ensures Accounted(Grant(t, w))
  {
    var r := Grant(t, w);
    assert forall x: nat :: x in r.grants <==> x in s.grants || x == w;
    assert forall x: nat :: x in s.waiters <==> x == w || x in r.waiters;
  }

  lemma StepKeeps(s: State, e: Event)
    requires Invariant(s)
    ensures Invariant(Step(s, e)) && Step(s, e).limit == s.limit
  {
    match e
    case Acquire(a) => AcquireKeeps(s, a);
    case Abort(r) => AbortKeeps(s, r);
    case Release(r) => ReleaseKeeps(s, r);
  }

  lemma HeldMeansActive(s: State, request: nat)
    requires Invariant(s) && request in s.permits && !s.permits[request]
    ensures s.active > 0
  {
    assert request in Held(s);
  }

  // ----- runs: every interleaving of acquire, abort and release -----

  function Run(s: State, events: seq<Event>): State {
    if events == [] then s else Step(Run(s, events[..|events| - 1]), events[|events| - 1])
  }

  lemma {:induction false} RunKeeps(limit: nat, events: seq<Event>)
    ensures Invariant(Run(Init(limit), events)) && Run(Init(limit), events).limit == limit
  {
    if events == [] {
      assert Held(Init(limit)) == {};
    } else {
      RunKeeps(limit, events[..|events| - 1]);
      StepKeeps(Run(Init(limit), events[..|events| - 1]), events[|events| - 1]);
    }
  }

  // Outstanding permits never exceed the limit, nobody waits while one is free, and no waiter is overtaken:
  // whoever arrived before a granted request was granted or aborted.
  lemma FairAndBounded(limit: nat, events: seq<Event>)
    ensures var s := Run(Init(limit), events);
      && |Held(s)| == s.active <= limit
      && (s.active < limit ==> s.waiters == [])
      && Increasing(s.grants)
      && (forall g: nat, r: nat :: g in s.grants && r < g ==> r in s.grants || r in s.aborted)
      && (forall g :: g in s.grants ==> g !in s.aborted)
  {
    var s := Run(Init(limit), events);
    RunKeeps(limit, events);
    forall g: nat, r: nat | g in s.grants && r < g ensures r in s.grants || r in s.aborted {
      var i :| 0 <= i < |s.grants| && s.grants[i] == g;
      forall j | 0 <= j < |s.waiters| ensures s.waiters[j] != r {
        assert s.grants[i] < s.waiters[j];
      }
    }
  }

  // What each request meets on arrival: refused when it comes aborted, a permit while fewer than the limit are out, and
  // the end of the queue otherwise.
  lemma ArrivalMeans(s: State, alreadyAborted: bool)
    requires Invariant(s)
    ensures var r, t := s.next, AcquireStep(s, alreadyAborted);
      && t.next == r + 1
      && t.aborted == (if alreadyAborted then s.aborted + {r} else s.aborted)
      && t.grants == (if !alreadyAborted && |Held(s)| < s.limit then s.grants + [r] else s.grants)
      && t.waiters == (if !alreadyAborted && |Held(s)| == s.limit then s.waiters + [r] else s.waiters)
      && Held(t) == (if !alreadyAborted && |Held(s)| < s.limit then Held(s) + {r} else Held(s))
  {
    assert forall r: nat :: r in s.grants ==> r < s.next;
    assert s.next !in s.permits;
  }

  ghost function Arrivals(events: seq<Event>): nat {
    if events == [] then 0 else Arrivals(events[..|events| - 1]) + if events[|events| - 1].Acquire? then 1 else 0
  }

  // Request r came aborted, or was aborted later.
  ghost predicate WasAborted(events: seq<Event>, r: nat) {
    exists i :: 0 <= i < |events|
      && (events[i] == Abort(r) || (events[i] == Acquire(true) && Arrivals(events[..i]) == r))
  }

  // What one event aborts.
  lemma StepAborts(s: State, e: Event)
    ensures Step(s, e).next == s.next + if e.Acquire? then 1 else 0
    ensures forall r: nat :: r in Step(s, e).aborted ==>
      r in s.aborted || e == Abort(r) || (e == Acquire(true) && r == s.next)
  {}

  lemma {:induction false} AbortedWereAborted(limit: nat, events: seq<Event>)
    ensures Run(Init(limit), events).next == Arrivals(events)
    ensures forall r: nat :: r in Run(Init(limit), events).aborted ==> WasAborted(events, r)
  {
    if events != [] {
      var i := |events| - 1;
      AbortedWereAborted(limit, events[..i]);
      StepAborts(Run(Init(limit), events[..i]), events[i]);
      hide Step;
      forall r: nat | r in Run(Init(limit), events).aborted ensures WasAborted(events, r) {
        if r in Run(Init(limit), events[..i]).aborted {
          StillAborted(events, r);
        } else {
          assert events[i] == Abort(r) || (events[i] == Acquire(true) && Arrivals(events[..i]) == r);
        }
      }
    }
  }

  // Nobody is refused who was not aborted: every request that came is granted, waiting while all permits are out, or
  // was aborted.
  lemma NobodyIsRefused(limit: nat, events: seq<Event>)
    ensures var s := Run(Init(limit), events);
      && s.next == Arrivals(events)
      && (forall r: nat :: r in s.aborted ==> WasAborted(events, r))
      && (forall r: nat :: r < Arrivals(events) && !WasAborted(events, r) ==>
            r in s.grants || (r in s.waiters && s.active == limit))
  {
    RunKeeps(limit, events);
    AbortedWereAborted(limit, events);
    hide Run, WasAborted, InOrder;
  }

  lemma StillAborted(events: seq<Event>, r: nat)
    requires events != [] && WasAborted(events[..|events| - 1], r)
    ensures WasAborted(events, r)
  {
    var init := events[..|events| - 1];
    var i :| 0 <= i < |init| && (init[i] == Abort(r) || (init[i] == Acquire(true) && Arrivals(init[..i]) == r));
    assert init[..i] == events[..i] && init[i] == events[i];
  }

  // Aborting takes a waiting request out of the queue, and does nothing to any other.
  lemma AbortMeans(s: State, request: nat)
    requires Invariant(s)
    ensures var t := AbortStep(s, request);
      && t.permits == s.permits && t.grants == s.grants && t.active == s.active && t.next == s.next
      && (forall r :: r in t.waiters <==> r in s.waiters && r != request)
      && t.aborted == (if request in s.waiters then s.aborted + {request} else s.aborted)
  {
    if request in s.waiters {
      WithoutFacts(s.waiters, request);
    }
  }

  // A release gives one permit back exactly once: it goes to the first waiter or to the free ones, and
  // releasing again changes nothing.
  lemma ReleaseOnce(s: State, request: nat)
    requires Invariant(s) && request in Held(s)
    ensures var t := ReleaseStep(s, request);
      && request !in Held(t)
      && (s.waiters == [] ==> t.active == s.active - 1 && Held(t) == Held(s) - {request})
      && (s.waiters != [] ==>
            && t.active == s.active && Held(t) == Held(s) - {request} + {s.waiters[0]}
            && t.waiters == s.waiters[1..])
      && ReleaseStep(t, request) == t
  {
    var t := ReleaseStep(s, request);
    var u := s.(permits := s.permits[request := true]);
    assert Held(u) == Held(s) - {request};
    if s.waiters != [] {
      var w := s.waiters[0];
      assert w in s.waiters;
      WaitingIsNotGranted(s, w);
      assert t.permits == s.permits[request := true][w := false];
      assert Held(t) == Held(s) - {request} + {w};
    } else {
      assert Held(t) == Held(u);
    }
  }

  // An aborted request is never granted afterwards.
  lemma {:induction false} AbortedStaysAborted(s: State, events: seq<Event>, request: nat)
    requires Invariant(s) && request in s.aborted
    ensures Invariant(Run(s, events)) && request in Run(s, events).aborted && request !in Run(s, events).grants
  {
    if events != [] {
      AbortedStaysAborted(s, events[..|events| - 1], request);
      var before := Run(s, events[..|events| - 1]);
      StepKeeps(before, events[|events| - 1]);
      assert before.aborted <= Run(s, events).aborted;
    }
  }

  // ----- the class -----

  datatype Acquired = Granted(request: nat) | Waiting(request: nat) | Refused(request: nat)

  class Semaphore {
    const limit: nat
    var active: nat
    var waiters: seq<nat>
    var permits: map<nat, bool>
    var next: nat
    ghost var aborted: set<nat>
    ghost var grants: seq<nat>

    ghost function View(): State
      reads this
    {
      State(limit, active, waiters, permits, next, aborted, grants)
    }

    ghost predicate Valid()
      reads this
    {
      limit >= 1 && Invariant(View())
    }

    constructor (limit: nat)
      requires limit >= 1
      ensures Valid() && View() == Init(limit)
    {
      this.limit := limit;
      active, waiters, permits, next, aborted, grants := 0, [], map[], 0, {}, [];
      new;
      RunKeeps(limit, []);
    }

    method Acquire(alreadyAborted: bool) returns (r: Acquired)
      requires Valid()
      modifies this
      ensures Valid() && View() == AcquireStep(old(View()), alreadyAborted)
      ensures r == (if alreadyAborted then Refused(old(next))
                    else if old(active) < limit then Granted(old(next)) else Waiting(old(next)))
    {
      AcquireKeeps(View(), alreadyAborted);
      var request := next;
      next := next + 1;
      if alreadyAborted {
        aborted := aborted + {request};
        return Refused(request);
      }
      if active < limit {
        active := active + 1;
        permits := permits[request := false];
        grants := grants + [request];
        return Granted(request);
      }
      waiters := waiters + [request];
      r := Waiting(request);
    }

    // The abort event of a waiter's signal.
    method OnAbort(request: nat) returns (rejected: bool)
      requires Valid()
      modifies this
      ensures Valid() && View() == AbortStep(old(View()), request)
      ensures rejected == (request in old(waiters))
    {
      AbortKeeps(View(), request);
      rejected := request in waiters;
      if rejected {
        waiters := Without(waiters, request);
        aborted := aborted + {request};
      }
    }

    // The release function of a granted request.
    method CallRelease(request: nat)
      requires Valid() && request in permits
      modifies this
      ensures Valid() && View() == ReleaseStep(old(View()), request)
    {
      hide Invariant;
      ReleaseKeeps(View(), request);
      if permits[request] { return; }
      HeldMeansActive(View(), request);
      permits := permits[request := true];
      if |waiters| > 0 {
        var waiter := waiters[0];
        waiters := waiters[1..];
        permits := permits[waiter := false];
        grants := grants + [waiter];
        return;
      }
      active := active - 1;
    }
  }
}
