// Adjacency, depth-limited search and neighbourhood expansion (src/codemap/search.ts).
module Neighborhood {
  import opened Basics
  import opened PageRank
  import opened Sums

  type Adjacency<T> = map<T, seq<T>>

  datatype Frame<T> = Frame(node: T, level: int)

  // The search's stack and its result list; a node is marked visited when it enters the result.
  datatype Search<T> = Search(stack: seq<Frame<T>>, found: seq<T>)

  ghost function Elements<T>(s: seq<T>): set<T> {
    set x | x in s
  }

  function Neighbors<T(==)>(adj: Adjacency<T>, n: T): seq<T> {
    if n in adj then adj[n] else []
  }

  ghost function Universe<T(!new)>(adj: Adjacency<T>): set<T> {
    set n, m | n in adj && m in adj[n] :: m
  }

  // The nodes at most k edges away from q.
  ghost function Ball<T(!new)>(adj: Adjacency<T>, q: T, k: int): set<T>
    decreases if k < 0 then 0 else k
  {
    if k <= 0 then {q}
    else Ball(adj, q, k - 1) + set n, m | n in Ball(adj, q, k - 1) && m in Neighbors(adj, n) :: m
  }

  lemma {:induction false} BallGrows<T(!new)>(adj: Adjacency<T>, q: T, j: int, k: int)
    requires j <= k
    ensures Ball(adj, q, j) <= Ball(adj, q, k)
    decreases if k < 0 then 0 else k
  {
    if j < k && k > 0 {
      BallGrows(adj, q, j, k - 1);
    }
  }

  // ----- specification of the search -----

  // Mark and push the neighbours not seen before.
  ghost function Visit<T>(ns: seq<T>, level: int, s: Search<T>): Search<T> {
    if ns == [] then s else Visit(ns[1..], level, Discover(ns[0], level, s))
  }

  ghost function Discover<T>(n: T, level: int, s: Search<T>): Search<T> {
    if n in s.found then s else Search(s.stack + [Frame(n, level + 1)], s.found + [n])
  }

  lemma {:induction false} VisitFinds<T>(ns: seq<T>, level: int, s: Search<T>)
    ensures var r := Visit(ns, level, s);
      && Elements(r.found) == Elements(s.found) + Elements(ns)
      && (Distinct(s.found) ==> Distinct(r.found))
  {
    if ns != [] {
      var t := Discover(ns[0], level, s);
      VisitFinds(ns[1..], level, t);
      assert Elements(t.found) == Elements(s.found) + {ns[0]};
      assert Elements(ns) == {ns[0]} + Elements(ns[1..]);
    }
  }

  lemma {:induction false} VisitPushes<T>(ns: seq<T>, level: int, s: Search<T>)
    ensures var r := Visit(ns, level, s);
      && (forall f :: f in s.stack ==> f in r.stack)
      && (forall f :: f in r.stack ==> f in s.stack || (f.node in ns && f.level == level + 1))
      && (forall n :: n in r.found ==> n in s.found || Frame(n, level + 1) in r.stack)
  {
    if ns != [] {
      VisitPushes(ns[1..], level, Discover(ns[0], level, s));
    }
  }

  lemma VisitShrinks<T(!new)>(adj: Adjacency<T>, n: T, level: int, s: Search<T>)
    ensures var r := Visit(Neighbors(adj, n), level, s);
      && Universe(adj) - Elements(r.found) <= Universe(adj) - Elements(s.found)
      && (Universe(adj) - Elements(r.found) == Universe(adj) - Elements(s.found) ==> r == s)
  {
    var ns := Neighbors(adj, n);
    VisitFinds(ns, level, s);
    if Universe(adj) - Elements(s.found) == Universe(adj) - (Elements(s.found) + Elements(ns)) {
      forall m | m in ns ensures m in s.found {
        assert m in Universe(adj) && m in Elements(ns);
        assert m !in Universe(adj) - (Elements(s.found) + Elements(ns));
      }
      VisitNothing(ns, level, s);
    }
  }

  lemma {:induction false} VisitNothing<T>(ns: seq<T>, level: int, s: Search<T>)
    requires forall m :: m in ns ==> m in s.found
    ensures Visit(ns, level, s) == s
  {
    if ns != [] {
      VisitNothing(ns[1..], level, s);
    }
  }

  // One turn of the loop: pop a node and, above the depth limit, visit its neighbours.
  ghost function Turn<T(!new)>(adj: Adjacency<T>, depth: int, s: Search<T>): Search<T>
    requires s.stack != []
  {
    var top := s.stack[|s.stack| - 1];
    var popped := s.(stack := s.stack[..|s.stack| - 1]);
    if top.level >= depth then popped else Visit(Neighbors(adj, top.node), top.level, popped)
  }

  lemma TurnDecreases<T(!new)>(adj: Adjacency<T>, depth: int, s: Search<T>)
    requires s.stack != []
    ensures var r := Turn(adj, depth, s);
      && Universe(adj) - Elements(r.found) <= Universe(adj) - Elements(s.found)
      && (Universe(adj) - Elements(r.found) == Universe(adj) - Elements(s.found) ==> |r.stack| < |s.stack|)
  {
    var top := s.stack[|s.stack| - 1];
    VisitShrinks(adj, top.node, top.level, s.(stack := s.stack[..|s.stack| - 1]));
  }

  ghost function Run<T(!new)>(adj: Adjacency<T>, depth: int, s: Search<T>): seq<T>
    decreases Universe(adj) - Elements(s.found), |s.stack|
  {
    if s.stack == [] then s.found else
      TurnDecreases(adj, depth, s);
      Run(adj, depth, Turn(adj, depth, s))
  }

  ghost function Found<T(!new)>(adj: Adjacency<T>, q: T, depth: int): seq<T> {
    Run(adj, depth, Search([Frame(q, 0)], [q]))
  }

  // ----- the search -----

  method Dfs<T(==, !new)>(adj: Adjacency<T>, query: T, depth: int) returns (result: seq<T>)
    ensures result == Found(adj, query, depth)
  {
    var visited := {query};
    result := [query];
    var stack := [Frame(query, 0)];
    while |stack| > 0
      invariant visited == Elements(result)
      invariant Run(adj, depth, Search(stack, result)) == Found(adj, query, depth)
      decreases Universe(adj) - Elements(result), |stack|
    {
      TurnDecreases(adj, depth, Search(stack, result));
      var top := stack[|stack| - 1];
      stack := stack[..|stack| - 1];
      if top.level < depth {
        stack, result, visited := VisitAll(Neighbors(adj, top.node), top.level, stack, result, visited);
      }
    }
  }

  method VisitAll<T(==)>(ns: seq<T>, level: int, stack0: seq<Frame<T>>, result0: seq<T>, visited0: set<T>)
    returns (stack: seq<Frame<T>>, result: seq<T>, visited: set<T>)
    requires visited0 == Elements(result0)
    ensures Search(stack, result) == Visit(ns, level, Search(stack0, result0))
    ensures visited == Elements(result)
  {
    stack, result, visited := stack0, result0, visited0;
    for i := 0 to |ns|
      invariant visited == Elements(result)
      invariant Visit(ns[i..], level, Search(stack, result)) == Visit(ns, level, Search(stack0, result0))
    {
      assert ns[i..][0] == ns[i] && ns[i..][1..] == ns[i + 1..];
      if ns[i] !in visited {
        visited := visited + {ns[i]};
        result := result + [ns[i]];
        stack := stack + [Frame(ns[i], level + 1)];
      }
    }
  }

  // ----- what the search finds -----

  ghost predicate Tracked<T(!new)>(adj: Adjacency<T>, q: T, depth: int, s: Search<T>) {
    && Distinct(s.found)
    && Elements(s.found) <= Ball(adj, q, depth)
    && (forall f :: f in s.stack ==> 0 <= f.level && f.node in Ball(adj, q, f.level))
  }

  // Where a turn's additions come from, for a frame that respects the ball of its level.
  lemma VisitTracks<T(!new)>(adj: Adjacency<T>, q: T, n: T, level: nat, depth: int, s: Search<T>)
    requires Tracked(adj, q, depth, s) && level < depth && n in Ball(adj, q, level)
    ensures Tracked(adj, q, depth, Visit(Neighbors(adj, n), level, s))
  {
    var ns := Neighbors(adj, n);
    VisitFinds(ns, level, s);
    VisitPushes(ns, level, s);
    NeighborsInBall(adj, q, n, level);
    BallGrows(adj, q, level + 1, depth);
    assert Elements(ns) <= Ball(adj, q, level + 1);
  }

  lemma TurnTracks<T(!new)>(adj: Adjacency<T>, q: T, depth: int, s: Search<T>)
    requires s.stack != [] && Tracked(adj, q, depth, s)
    ensures Tracked(adj, q, depth, Turn(adj, depth, s))
  {
    var top := s.stack[|s.stack| - 1];
    var popped := s.(stack := s.stack[..|s.stack| - 1]);
    assert top in s.stack && forall f :: f in popped.stack ==> f in s.stack;
    assert Tracked(adj, q, depth, popped);
    if top.level < depth {
      VisitTracks(adj, q, top.node, top.level, depth, popped);
    }
  }

  lemma NeighborsInBall<T(!new)>(adj: Adjacency<T>, q: T, n: T, k: nat)
    requires n in Ball(adj, q, k)
    ensures forall m :: m in Neighbors(adj, n) ==> m in Ball(adj, q, k + 1)
  {}

  // At any depth: no duplicates and nothing farther than the depth.
  lemma {:induction false} RunIsSound<T(!new)>(adj: Adjacency<T>, q: T, depth: int, s: Search<T>)
    requires Tracked(adj, q, depth, s)
    ensures Distinct(Run(adj, depth, s)) && Elements(Run(adj, depth, s)) <= Ball(adj, q, depth)
    decreases Universe(adj) - Elements(s.found), |s.stack|
  {
    if s.stack != [] {
      TurnDecreases(adj, depth, s);
      TurnTracks(adj, q, depth, s);
      RunIsSound(adj, q, depth, Turn(adj, depth, s));
    }
  }

  lemma FoundIsSound<T(!new)>(adj: Adjacency<T>, q: T, depth: int)
    ensures Distinct(Found(adj, q, depth))
    ensures Elements(Found(adj, q, depth)) <= Ball(adj, q, depth)
    ensures q in Found(adj, q, depth)
  {
    BallGrows(adj, q, if depth < 0 then depth else 0, depth);
    RunIsSound(adj, q, depth, Search([Frame(q, 0)], [q]));
    RunKeeps(adj, depth, Search([Frame(q, 0)], [q]));
    assert q in Elements([q]);
  }

  lemma {:induction false} RunKeeps<T(!new)>(adj: Adjacency<T>, depth: int, s: Search<T>)
    ensures Elements(s.found) <= Elements(Run(adj, depth, s))
    decreases Universe(adj) - Elements(s.found), |s.stack|
  {
    if s.stack != [] {
      TurnDecreases(adj, depth, s);
      TurnFinds(adj, depth, s);
      RunKeeps(adj, depth, Turn(adj, depth, s));
    }
  }

  lemma TurnFinds<T(!new)>(adj: Adjacency<T>, depth: int, s: Search<T>)
    requires s.stack != []
    ensures var r := Turn(adj, depth, s);
      var top := s.stack[|s.stack| - 1];
      && Elements(s.found) <= Elements(r.found)
      && (top.level < depth ==> Elements(r.found) == Elements(s.found) + Elements(Neighbors(adj, top.node)))
      && (forall f :: f in s.stack[..|s.stack| - 1] ==> f in r.stack)
      && (forall n :: n in r.found ==> n in s.found || Frame(n, top.level + 1) in r.stack)
  {
    var top := s.stack[|s.stack| - 1];
    var popped := s.(stack := s.stack[..|s.stack| - 1]);
    VisitFinds(Neighbors(adj, top.node), top.level, popped);
    VisitPushes(Neighbors(adj, top.node), top.level, popped);
  }

  // A node whose neighbours are all found, or which waits at level 1 to have them visited.
  ghost predicate Pending<T>(adj: Adjacency<T>, n: T, s: Search<T>) {
    n in s.found && (Frame(n, 1) in s.stack || Elements(Neighbors(adj, n)) <= Elements(s.found))
  }

  lemma {:induction false} RunCloses<T(!new)>(adj: Adjacency<T>, n: T, s: Search<T>)
    requires Pending(adj, n, s)
    ensures Elements(Neighbors(adj, n)) <= Elements(Run(adj, 2, s))
    decreases Universe(adj) - Elements(s.found), |s.stack|
  {
    if s.stack != [] {
      TurnDecreases(adj, 2, s);
      var r := Turn(adj, 2, s);
      var top := s.stack[|s.stack| - 1];
      if top != Frame(n, 1) && Frame(n, 1) in s.stack {
        assert Frame(n, 1) in s.stack[..|s.stack| - 1];
      }
      TurnFinds(adj, 2, s);
      assert n in Elements(s.found);
      RunCloses(adj, n, r);
    }
  }

  // Up to depth two marking nodes on discovery loses nothing.
  lemma ShallowIsExact<T(!new)>(adj: Adjacency<T>, q: T, depth: int)
    requires depth <= 2
    ensures Elements(Found(adj, q, depth)) == Ball(adj, q, depth)
  {
    FoundIsSound(adj, q, depth);
    var s := Search([Frame(q, 0)], [q]);
    if depth > 0 {
      TurnDecreases(adj, depth, s);
      var r := Turn(adj, depth, s);
      RunKeeps(adj, depth, r);
      TurnFinds(adj, depth, s);
      assert Elements(r.found) == Ball(adj, q, 1) by {
        assert Ball(adj, q, 0) == {q};
      }
      if depth == 2 {
        assert Elements(Neighbors(adj, q)) <= Elements(r.found);
        forall n | n in Ball(adj, q, 1) ensures Elements(Neighbors(adj, n)) <= Elements(Found(adj, q, 2)) {
          assert n in Elements(r.found);
          RunCloses(adj, n, r);
        }
      }
    }
  }

  // ----- beyond depth two -----

  // 0 leads to 1 and 2; 1 leads straight to d + 1, and 2, 3, ..., d + 2 is a chain.
  ghost function Detour(d: nat): Adjacency<int> {
    map n | n in Elements(UpTo(d + 1)) :: DetourNext(d, n)
  }

  ghost function DetourNext(d: nat, n: int): seq<int> {
    if n == 0 then [1, 2] else if n == 1 then [d + 1] else [n + 1]
  }

  ghost function UpTo(n: nat): seq<int> {
    seq(n + 1, i => i)
  }

  lemma DetourNeighbors(d: nat, n: nat)
    requires n <= d + 1
    ensures Neighbors(Detour(d), n) == DetourNext(d, n)
  {
    assert UpTo(d + 1)[n] == n;
    assert n in UpTo(d + 1);
  }

  lemma {:induction false} DetourRun(d: nat, i: nat)
    requires 3 <= d && 2 <= i <= d + 1
    ensures Run(Detour(d), d, Search([Frame(1, 1), Frame(i, i - 1)], UpTo(i))) == UpTo(d + 1)
    decreases d + 1 - i
  {
    var adj := Detour(d);
    var s := Search([Frame(1, 1), Frame(i, i - 1)], UpTo(i));
    TurnDecreases(adj, d, s);
    DetourNeighbors(d, i);
    assert s.stack[..1] == [Frame(1, 1)];
    if i < d + 1 {
      var popped := Search([Frame(1, 1)], UpTo(i));
      assert i + 1 !in UpTo(i);
      assert UpTo(i) + [i + 1] == UpTo(i + 1);
      VisitOne(i + 1, i - 1, popped);
      assert s.(stack := s.stack[..1]) == popped && Neighbors(adj, i) == [i + 1];
      assert Turn(adj, d, s) == Search([Frame(1, 1), Frame(i + 1, i)], UpTo(i + 1));
      DetourRun(d, i + 1);
    } else {
      assert Turn(adj, d, s) == Search([Frame(1, 1)], UpTo(d + 1));
      DetourEnds(d);
    }
  }

  lemma DetourEnds(d: nat)
    requires 3 <= d
    ensures Run(Detour(d), d, Search([Frame(1, 1)], UpTo(d + 1))) == UpTo(d + 1)
  {
    var adj := Detour(d);
    var last := Search([Frame(1, 1)], UpTo(d + 1));
    TurnDecreases(adj, d, last);
    DetourNeighbors(d, 1);
    assert last.stack[..0] == [];
    assert UpTo(d + 1)[d + 1] == d + 1;
    VisitNothing([d + 1], 1, Search([], UpTo(d + 1)));
    assert last.(stack := last.stack[..0]) == Search([], UpTo(d + 1)) && Neighbors(adj, 1) == [d + 1];
    assert Turn(adj, d, last) == Search([], UpTo(d + 1));
  }

  lemma VisitOne<T>(n: T, level: int, s: Search<T>)
    requires n !in s.found
    ensures Visit([n], level, s) == Search(s.stack + [Frame(n, level + 1)], s.found + [n])
  {
    assert [n][1..] == [];
  }

  // At every depth from three on, the search misses a node three edges away.
  lemma DeepMisses(d: nat)
    requires 3 <= d
    ensures Elements(Found(Detour(d), 0, d)) != Ball(Detour(d), 0, d)
  {
    var adj := Detour(d);
    var s := Search([Frame(0, 0)], [0]);
    TurnDecreases(adj, d, s);
    DetourNeighbors(d, 0);
    DetourNeighbors(d, 1);
    DetourNeighbors(d, d + 1);
    assert s.stack[..0] == [];
    assert [1, 2][1..] == [2];
    var one := Search([Frame(1, 1)], [0, 1]);
    VisitOne(2, 0, one);
    assert Visit([1, 2], 0, Search([], [0])) == Visit([2], 0, one);
    assert s.(stack := s.stack[..0]) == Search([], [0]) && Neighbors(adj, 0) == [1, 2];
    assert Turn(adj, d, s) == Search([Frame(1, 1), Frame(2, 1)], [0, 1, 2]);
    assert UpTo(2) == [0, 1, 2];
    DetourRun(d, 2);
    assert d + 2 !in UpTo(d + 1);
    assert 0 in Ball(adj, 0, 0);
    assert 1 in Neighbors(adj, 0);
    assert 1 in Ball(adj, 0, 1);
    assert d + 1 in Neighbors(adj, 1);
    assert d + 1 in Ball(adj, 0, 2);
    assert d + 2 in Neighbors(adj, d + 1);
    assert d + 2 in Ball(adj, 0, 3);
    BallGrows(adj, 0, 3, d);
  }

  // The depths at which the search is exact on every graph are exactly those up to two.
  lemma ExactDepths(depth: int)
    ensures (forall adj: Adjacency<int>, q: int :: Elements(Found(adj, q, depth)) == Ball(adj, q, depth)) <==>
      depth <= 2
  {
    if depth <= 2 {
      forall adj: Adjacency<int>, q: int ensures Elements(Found(adj, q, depth)) == Ball(adj, q, depth) {
        ShallowIsExact(adj, q, depth);
      }
    } else {
      DeepMisses(depth);
    }
  }

  // ----- adjacency -----

  function Allowed(kinds: Option<set<EdgeKind>>, e: RankEdge): bool {
    kinds.None? || e.kind in kinds.value
  }

  // The targets of the allowed edges out of n, in order.
  function Targets(edges: seq<RankEdge>, kinds: Option<set<EdgeKind>>, n: Node): seq<Node> {
    if edges == [] then [] else
      var last := edges[|edges| - 1];
      Targets(edges[..|edges| - 1], kinds, n) + if Allowed(kinds, last) && last.from == n then [last.to] else []
  }

  ghost function AdjacencyOf(nodes: seq<Node>, edges: seq<RankEdge>, kinds: Option<set<EdgeKind>>): Adjacency<Node> {
    map n | n in nodes :: Targets(edges, kinds, n)
  }

  method BuildAdjacency(nodes: seq<Node>, edges: seq<RankEdge>, kinds: Option<set<EdgeKind>> := None)
    returns (adj: Adjacency<Node>)
    ensures adj == AdjacencyOf(nodes, edges, kinds)
  {
    adj := map n | n in nodes :: [];
    for i := 0 to |edges|
      invariant adj.Keys == set n | n in nodes
      invariant forall n :: n in nodes ==> adj[n] == Targets(edges[..i], kinds, n)
    {
      assert edges[..i + 1][..i] == edges[..i];
      if Allowed(kinds, edges[i]) && edges[i].from in adj {
        adj := adj[edges[i].from := adj[edges[i].from] + [edges[i].to]];
      }
    }
    assert edges[..|edges|] == edges;
  }

  function Flip(edges: seq<RankEdge>): seq<RankEdge> {
    seq(|edges|, i requires 0 <= i < |edges| => RankEdge(edges[i].to, edges[i].from, edges[i].weight, edges[i].kind))
  }

  lemma {:induction false} TargetsAreEdges(edges: seq<RankEdge>, n: Node)
    ensures forall m :: m in Targets(edges, None, n) <==> exists e :: e in edges && e.from == n && e.to == m
  {
    if edges != [] {
      var init, last := edges[..|edges| - 1], edges[|edges| - 1];
      TargetsAreEdges(init, n);
      assert edges == init + [last];
    }
  }

  // Exactly the allowed edges out of n, in order.
  lemma {:induction false} TargetsAreChosen(edges: seq<RankEdge>, kinds: Option<set<EdgeKind>>, n: Node)
      returns (at: seq<nat>)
    ensures Chosen(edges, (e: RankEdge) => e.from == n && (kinds.Some? ==> e.kind in kinds.value), at)
    ensures var targets := Targets(edges, kinds, n);
      |targets| == |at| && forall i :: 0 <= i < |at| ==> at[i] in at && targets[i] == edges[at[i]].to
  {
    var keep := (e: RankEdge) => e.from == n && (kinds.Some? ==> e.kind in kinds.value);
    if edges == [] {
      at := [];
    } else {
      var init, last := edges[..|edges| - 1], edges[|edges| - 1];
      at := TargetsAreChosen(init, kinds, n);
      ChosenSnoc(init, keep, at, last);
      assert edges == init + [last];
      at := at + if keep(last) then [|init|] else [];
    }
  }

  ghost predicate Linked(edges: seq<RankEdge>, n: Node, m: Node) {
    exists e :: e in edges && e.from == n && e.to == m
  }

  ghost predicate EndsInside(nodes: seq<Node>, edges: seq<RankEdge>) {
    forall e :: e in edges ==> e.from in nodes && e.to in nodes
  }

  ghost function Forward(nodes: seq<Node>, edges: seq<RankEdge>): Adjacency<Node> {
    AdjacencyOf(nodes, edges, None)
  }

  ghost function Backward(nodes: seq<Node>, edges: seq<RankEdge>): Adjacency<Node> {
    AdjacencyOf(nodes, Flip(edges), None)
  }

  lemma ForwardNeighbors(nodes: seq<Node>, edges: seq<RankEdge>, n: Node, m: Node)
    requires EndsInside(nodes, edges)
    ensures m in Neighbors(Forward(nodes, edges), n) <==> Linked(edges, n, m)
  {
    TargetsAreEdges(edges, n);
  }

  lemma BackwardNeighbors(nodes: seq<Node>, edges: seq<RankEdge>, n: Node, m: Node)
    requires EndsInside(nodes, edges)
    ensures m in Neighbors(Backward(nodes, edges), n) <==> Linked(edges, m, n)
  {
    var back := Flip(edges);
    TargetsAreEdges(back, n);
    if Linked(edges, m, n) {
      var e :| e in edges && e.from == m && e.to == n;
      var i :| 0 <= i < |edges| && edges[i] == e;
      assert back[i] in back;
    }
  }

  // A first edge followed by at most k more.
  lemma {:induction false} BallFront<T(!new)>(adj: Adjacency<T>, a: T, x: T, m: T, k: nat)
    requires x in Neighbors(adj, a) && m in Ball(adj, x, k)
    ensures m in Ball(adj, a, k + 1)
  {
    if k == 0 {
      assert a in Ball(adj, a, 0);
    } else if m in Ball(adj, x, k - 1) {
      BallFront(adj, a, x, m, k - 1);
    } else {
      var n :| n in Ball(adj, x, k - 1) && m in Neighbors(adj, n);
      BallFront(adj, a, x, n, k - 1);
    }
  }

  // The last edge of a walk.
  lemma LastEdge<T(!new)>(adj: Adjacency<T>, q: T, m: T, k: nat) returns (n: T)
    requires k > 0 && m in Ball(adj, q, k) && m !in Ball(adj, q, k - 1)
    ensures n in Ball(adj, q, k - 1) && m in Neighbors(adj, n)
  {
    n :| n in Ball(adj, q, k - 1) && m in Neighbors(adj, n);
  }

  lemma BallOfNone<T(!new)>(adj: Adjacency<T>, q: T)
    ensures Ball(adj, q, 0) == {q}
  {}

  // Walking the reversed edges from a reaches the nodes from which the edges lead to a.
  lemma {:induction false} BackwardBall(nodes: seq<Node>, edges: seq<RankEdge>, a: Node, m: Node, k: nat)
    requires EndsInside(nodes, edges)
    requires m in Ball(Backward(nodes, edges), a, k)
    ensures a in Ball(Forward(nodes, edges), m, k)
    decreases k
  {
    hide Forward, Backward, EndsInside, Ball;
    var fwd, rev := Forward(nodes, edges), Backward(nodes, edges);
    if k == 0 {
      BallOfNone(rev, a);
      BallOfNone(fwd, m);
    } else {
      if m in Ball(rev, a, k - 1) {
        BackwardBall(nodes, edges, a, m, k - 1);
        BallGrows(fwd, m, k - 1, k);
      } else {
        var n := LastEdge(rev, a, m, k);
        BackwardBall(nodes, edges, a, n, k - 1);
        BackwardNeighbors(nodes, edges, n, m);
        ForwardNeighbors(nodes, edges, m, n);
        BallFront(fwd, m, n, a, k - 1);
      }
    }
  }

  lemma {:induction false} ForwardBall(nodes: seq<Node>, edges: seq<RankEdge>, a: Node, m: Node, k: nat)
    requires EndsInside(nodes, edges)
    requires a in Ball(Forward(nodes, edges), m, k)
    ensures m in Ball(Backward(nodes, edges), a, k)
    decreases k
  {
    hide Forward, Backward, EndsInside, Ball;
    var fwd, rev := Forward(nodes, edges), Backward(nodes, edges);
    if k == 0 {
      BallOfNone(fwd, m);
      BallOfNone(rev, a);
    } else {
      if a in Ball(fwd, m, k - 1) {
        ForwardBall(nodes, edges, a, m, k - 1);
        BallGrows(rev, a, k - 1, k);
      } else {
        var n := LastEdge(fwd, m, a, k);
        ForwardBall(nodes, edges, n, m, k - 1);
        ForwardNeighbors(nodes, edges, n, a);
        BackwardNeighbors(nodes, edges, a, n);
        BallFront(rev, a, n, m, k - 1);
      }
    }
  }

  // ----- neighbourhood expansion -----

  datatype Prebuilt = Prebuilt(fwd: Adjacency<Node>, rev: Adjacency<Node>, outEdges: map<Node, seq<RankEdge>>)

  // Add to a set kept in insertion order.
  function Add<T(==)>(s: seq<T>, xs: seq<T>): seq<T>
    decreases xs
  {
    if xs == [] then s else Add(if xs[0] in s then s else s + [xs[0]], xs[1..])
  }

  lemma {:induction false} AddFacts<T>(s: seq<T>, xs: seq<T>)
    ensures Elements(Add(s, xs)) == Elements(s) + Elements(xs)
    ensures Distinct(s) ==> Distinct(Add(s, xs))
    ensures s <= Add(s, xs)
    decreases xs
  {
    if xs != [] {
      var t := if xs[0] in s then s else s + [xs[0]];
      AddFacts(t, xs[1..]);
      assert Elements(t) == Elements(s) + {xs[0]};
      assert Elements(xs) == {xs[0]} + Elements(xs[1..]);
    }
  }

  ghost function Expanded(fwd: Adjacency<Node>, rev: Adjacency<Node>, anchors: seq<Node>, depth: int,
                          s: seq<Node>): seq<Node> {
    if anchors == [] then s else
      Expanded(fwd, rev, anchors[1..], depth, Add(Add(s, Found(fwd, anchors[0], depth)), Found(rev, anchors[0], depth)))
  }

  ghost function Surroundings(fwd: Adjacency<Node>, rev: Adjacency<Node>, anchors: seq<Node>, depth: int): seq<Node> {
    Expanded(fwd, rev, anchors, depth, Add([], anchors))
  }

  method ExpandNeighborhood(nodes: seq<Node>, edges: seq<RankEdge>, anchors: seq<Node>, depth: int,
                            prebuilt: Option<Prebuilt>)
    returns (reached: seq<Node>)
    ensures var fwd := if prebuilt.Some? then prebuilt.value.fwd else Forward(nodes, edges);
      var rev := if prebuilt.Some? then prebuilt.value.rev else Backward(nodes, edges);
      reached == Surroundings(fwd, rev, anchors, depth)
  {
    var fwd, rev;
    if prebuilt.Some? {
      fwd, rev := prebuilt.value.fwd, prebuilt.value.rev;
    } else {
      fwd := BuildAdjacency(nodes, edges);
      rev := BuildAdjacency(nodes, Flip(edges));
    }
    reached := Add([], anchors);
    for i := 0 to |anchors|
      invariant Expanded(fwd, rev, anchors[i..], depth, reached) == Surroundings(fwd, rev, anchors, depth)
    {
      assert anchors[i..][0] == anchors[i] && anchors[i..][1..] == anchors[i + 1..];
      var ahead := Dfs(fwd, anchors[i], depth);
      var behind := Dfs(rev, anchors[i], depth);
      reached := Add(Add(reached, ahead), behind);
    }
  }

  // The nodes in the order in which they turn up: the anchors, then around each anchor those ahead and those behind.
  ghost function Visited(fwd: Adjacency<Node>, rev: Adjacency<Node>, anchors: seq<Node>, depth: int): seq<Node> {
    if anchors == [] then []
    else Found(fwd, anchors[0], depth) + Found(rev, anchors[0], depth) + Visited(fwd, rev, anchors[1..], depth)
  }

  // r keeps the first of each element of xs, in order: its i-th element comes from position at[i].
  ghost predicate FirstSeen<T>(r: seq<T>, xs: seq<T>, at: seq<nat>) {
    && |at| == |r| && (forall i, j :: 0 <= i < j < |at| ==> at[i] < at[j])
    && (forall i :: 0 <= i < |r| ==> at[i] < |xs| && xs[at[i]] == r[i] && r[i] !in xs[..at[i]])
    && (forall x :: x in xs ==> x in r)
  }

  lemma {:induction false} AddConcat<T>(s: seq<T>, xs: seq<T>, ys: seq<T>)
    ensures Add(Add(s, xs), ys) == Add(s, xs + ys)
    decreases xs
  {
    if xs == [] {
      assert xs + ys == ys;
    } else {
      AddConcat(if xs[0] in s then s else s + [xs[0]], xs[1..], ys);
      assert (xs + ys)[1..] == xs[1..] + ys;
    }
  }

  lemma {:induction false} AddIsFirstSeen<T>(xs: seq<T>) returns (at: seq<nat>)
    ensures FirstSeen(Add([], xs), xs, at)
  {
    if xs == [] {
      at := [];
    } else {
      var i := |xs| - 1;
      at := AddIsFirstSeen(xs[..i]);
      AddConcat([], xs[..i], xs[i..]);
      assert xs[..i] + xs[i..] == xs && xs[i..][1..] == [];
      AddFacts([], xs[..i]);
      assert forall x :: x in xs[..i] <==> x in Elements(xs[..i]);
      assert forall x :: x in Add([], xs[..i]) <==> x in Elements(Add([], xs[..i]));
      assert forall j :: 0 <= j < |at| ==> xs[..at[j]] == xs[..i][..at[j]];
      if xs[i] !in Add([], xs[..i]) { at := at + [i]; }
    }
  }

  lemma {:induction false} ExpandedIsAdded(fwd: Adjacency<Node>, rev: Adjacency<Node>, anchors: seq<Node>, depth: int,
                                           s: seq<Node>)
    ensures Expanded(fwd, rev, anchors, depth, s) == Add(s, Visited(fwd, rev, anchors, depth))
  {
    if anchors != [] {
      var ahead, behind := Found(fwd, anchors[0], depth), Found(rev, anchors[0], depth);
      AddConcat(s, ahead, behind);
      AddConcat(s, ahead + behind, Visited(fwd, rev, anchors[1..], depth));
      ExpandedIsAdded(fwd, rev, anchors[1..], depth, Add(Add(s, ahead), behind));
    }
  }

  // The expansion keeps that order.
  lemma SurroundingsAreFirstSeen(fwd: Adjacency<Node>, rev: Adjacency<Node>, anchors: seq<Node>, depth: int)
      returns (at: seq<nat>)
    ensures FirstSeen(Surroundings(fwd, rev, anchors, depth), anchors + Visited(fwd, rev, anchors, depth), at)
  {
    ExpandedIsAdded(fwd, rev, anchors, depth, Add([], anchors));
    AddConcat([], anchors, Visited(fwd, rev, anchors, depth));
    at := AddIsFirstSeen(anchors + Visited(fwd, rev, anchors, depth));
  }

  ghost predicate Near(fwd: Adjacency<Node>, rev: Adjacency<Node>, anchors: seq<Node>, depth: int, n: Node) {
    exists a :: a in anchors && (n in Found(fwd, a, depth) || n in Found(rev, a, depth))
  }

  lemma {:induction false} ExpandedFacts(fwd: Adjacency<Node>, rev: Adjacency<Node>, anchors: seq<Node>, depth: int,
                                         s: seq<Node>)
    ensures var r := Expanded(fwd, rev, anchors, depth, s);
      && s <= r
      && (Distinct(s) ==> Distinct(r))
      && (forall n :: n in r <==> n in s || Near(fwd, rev, anchors, depth, n))
  {
    if anchors != [] {
      var a := anchors[0];
      var ahead, behind := Found(fwd, a, depth), Found(rev, a, depth);
      var s1 := Add(s, ahead);
      var s2 := Add(s1, behind);
      AddFacts(s, ahead);
      AddFacts(s1, behind);
      ExpandedFacts(fwd, rev, anchors[1..], depth, s2);
      forall n ensures n in Expanded(fwd, rev, anchors, depth, s) <==> n in s || Near(fwd, rev, anchors, depth, n) {
        assert n in s2 <==> n in Elements(s2);
        assert n in s1 <==> n in Elements(s1);
        assert n in s <==> n in Elements(s);
        assert n in ahead <==> n in Elements(ahead);
        assert n in behind <==> n in Elements(behind);
        NearSplit(fwd, rev, anchors, depth, n);
      }
    }
  }

  lemma NearSplit(fwd: Adjacency<Node>, rev: Adjacency<Node>, anchors: seq<Node>, depth: int, n: Node)
    requires anchors != []
    ensures Near(fwd, rev, anchors, depth, n)
      <==> (n in Found(fwd, anchors[0], depth) || n in Found(rev, anchors[0], depth)
            || Near(fwd, rev, anchors[1..], depth, n))
  {
    assert forall a :: a in anchors <==> a == anchors[0] || a in anchors[1..];
  }

  // The anchors come first, nothing is repeated, and every node returned is within the depth.
  lemma NeighborhoodIsSound(nodes: seq<Node>, edges: seq<RankEdge>, anchors: seq<Node>, depth: int)
    ensures var r := Surroundings(Forward(nodes, edges), Backward(nodes, edges), anchors, depth);
      && Distinct(r) && Add([], anchors) <= r
      && (forall a :: a in anchors ==> a in r)
      && (forall n :: n in r ==>
            (exists a :: a in anchors
               && (n in Ball(Forward(nodes, edges), a, depth) || n in Ball(Backward(nodes, edges), a, depth))))
  {
    var fwd, rev := Forward(nodes, edges), Backward(nodes, edges);
    var r := Surroundings(fwd, rev, anchors, depth);
    AddFacts([], anchors);
    ExpandedFacts(fwd, rev, anchors, depth, Add([], anchors));
    forall n | n in r
      ensures exists a :: a in anchors && (n in Ball(fwd, a, depth) || n in Ball(rev, a, depth))
    {
      if n in Add([], anchors) {
        assert n in Elements(Add([], anchors));
        FoundIsSound(fwd, n, depth);
        assert n in Elements(Found(fwd, n, depth));
      } else {
        var a :| a in anchors && (n in Found(fwd, a, depth) || n in Found(rev, a, depth));
        FoundIsSound(fwd, a, depth);
        FoundIsSound(rev, a, depth);
        assert n in Elements(Found(fwd, a, depth)) || n in Elements(Found(rev, a, depth));
      }
    }
    forall a | a in anchors ensures a in r {
      assert a in Elements(Add([], anchors));
    }
  }

  // Up to depth two the expansion is exactly the nodes that reach, or are reached from, an anchor in that many edges.
  lemma NeighborhoodIsExact(nodes: seq<Node>, edges: seq<RankEdge>, anchors: seq<Node>, depth: nat, n: Node)
    requires EndsInside(nodes, edges) && depth <= 2
    ensures n in Surroundings(Forward(nodes, edges), Backward(nodes, edges), anchors, depth)
      <==> exists a ::
             a in anchors && (n in Ball(Forward(nodes, edges), a, depth) || a in Ball(Forward(nodes, edges), n, depth))
  {
    var fwd, rev := Forward(nodes, edges), Backward(nodes, edges);
    NeighborhoodIsSound(nodes, edges, anchors, depth);
    if n in Surroundings(fwd, rev, anchors, depth) {
      var a :| a in anchors && (n in Ball(fwd, a, depth) || n in Ball(rev, a, depth));
      if n in Ball(rev, a, depth) {
        BackwardBall(nodes, edges, a, n, depth);
      }
    }
    if a :| a in anchors && (n in Ball(fwd, a, depth) || a in Ball(fwd, n, depth)) {
      ExpandedFacts(fwd, rev, anchors, depth, Add([], anchors));
      ShallowIsExact(fwd, a, depth);
      ShallowIsExact(rev, a, depth);
      if n in Ball(fwd, a, depth) {
        assert n in Elements(Found(fwd, a, depth));
      } else {
        ForwardBall(nodes, edges, a, n, depth);
        assert n in Elements(Found(rev, a, depth));
      }
      assert Near(fwd, rev, anchors, depth, n);
    }
  }
}
