// Weighted PageRank by power iteration (src/codemap/rank.ts), over real arithmetic.
module PageRank {
  import opened Sums

  type Node = string

  datatype EdgeKind = Contains | Imports | Invokes | Inherits

  datatype RankEdge = RankEdge(from: Node, to: Node, weight: real, kind: EdgeKind)

  datatype Graph = Graph(nodes: seq<Node>, edges: seq<RankEdge>)

  // A personalization map, as its entries in insertion order; a map has no repeated key.
  type Weights = seq<(Node, real)>

  type Ranks = map<Node, real>

  const DEFAULT_DAMPING := 0.85
  const DEFAULT_MAX_ITERATIONS := 100
  const DEFAULT_EPSILON := 0.000001

  function Get(m: Ranks, n: Node, default: real): real {
    if n in m then m[n] else default
  }

  function WeightOf(w: Weights, n: Node): real {
    if w == [] then 0.0 else if w[0].0 == n then w[0].1 else WeightOf(w[1..], n)
  }

  // ----- specification -----

  ghost predicate DistinctKeys(w: Weights) {
    forall i, j :: 0 <= i < j < |w| ==> w[i].0 != w[j].0
  }

  // What the callers supply: distinct nodes, edges inside them, no negative weight.
  ghost predicate Proper(g: Graph) {
    && Distinct(g.nodes)
    && (forall e :: e in g.edges ==> e.from in g.nodes && e.to in g.nodes && e.weight >= 0.0)
  }

  ghost function Total(ns: seq<Node>, m: Ranks): real {
    Sum(ns, Reading(m))
  }

  ghost function Reading(m: Ranks): Node -> real {
    n => Get(m, n, 0.0)
  }

  ghost predicate Distribution(ns: seq<Node>, m: Ranks) {
    && m.Keys == (set n | n in ns)
    && (forall n :: n in m ==> m[n] >= 0.0)
    && Total(ns, m) == 1.0
  }

  ghost function Gap(x: Ranks, y: Ranks): Node -> real {
    n => Abs(Get(y, n, 0.0) - Get(x, n, 0.0))
  }

  // The L1 distance between two rank vectors.
  ghost function Distance(ns: seq<Node>, x: Ranks, y: Ranks): real {
    Sum(ns, Gap(x, y))
  }

  function Weight(): RankEdge -> real { (e: RankEdge) => e.weight }

  function Source(): RankEdge -> Node { (e: RankEdge) => e.from }

  function Target(): RankEdge -> Node { (e: RankEdge) => e.to }

  ghost function OutWeight(edges: seq<RankEdge>, n: Node): real {
    Sum(edges, InClass(Weight(), Source(), n))
  }

  // The part of `mass` that leaves a node of out-weight `ow` along an edge of weight w.
  function Along(mass: real, w: real, ow: real): real {
    if ow > 0.0 then mass * w / ow else 0.0
  }

  // Teleport, dangling mass and inflow of one node.
  function Blend(d: real, dangling: real, p: real, inflow: real): real {
    (1.0 - d) * p + d * dangling * p + d * inflow
  }

  ghost function Share(edges: seq<RankEdge>, f: Node -> real): RankEdge -> real {
    (e: RankEdge) => Along(f(e.from), e.weight, OutWeight(edges, e.from))
  }

  ghost function Inflow(edges: seq<RankEdge>, f: Node -> real): Node -> real {
    ClassSum(edges, Share(edges, f), Target())
  }

  ghost function IfDangling(edges: seq<RankEdge>, f: Node -> real): Node -> real {
    n => if OutWeight(edges, n) == 0.0 then f(n) else 0.0
  }

  ghost function IfFlowing(edges: seq<RankEdge>, f: Node -> real): Node -> real {
    n => if OutWeight(edges, n) > 0.0 then f(n) else 0.0
  }

  ghost function Dangling(g: Graph, f: Node -> real): real {
    Sum(g.nodes, IfDangling(g.edges, f))
  }

  // One iteration.
  ghost function Step(g: Graph, pers: Ranks, d: real, x: Ranks): Ranks {
    map n | n in g.nodes :: NodeRank(g, pers, d, x, n)
  }

  ghost function NodeRank(g: Graph, pers: Ranks, d: real, x: Ranks, n: Node): real {
    Blend(d, Dangling(g, Reading(x)), Get(pers, n, 0.0), Inflow(g.edges, Reading(x))(n))
  }

  datatype Outcome = Outcome(ranks: Ranks, converged: bool)

  // The iteration loop: stop at the first step shorter than eps, or when `fuel` runs out.
  ghost function Power(g: Graph, pers: Ranks, d: real, eps: real, fuel: nat, x: Ranks): Outcome {
    if fuel == 0 then Outcome(x, false) else
      var next := Step(g, pers, d, x);
      if Distance(g.nodes, x, next) < eps then Outcome(next, true) else Power(g, pers, d, eps, fuel - 1, next)
  }

  // The teleport vector.
  ghost function WeightTotal(w: Weights): real {
    Sum(w, (p: (Node, real)) => p.1)
  }

  ghost predicate Personalized(ns: seq<Node>, w: Weights) {
    WeightTotal(w) > 0.0 && exists n :: n in ns && WeightOf(w, n) > 0.0
  }

  ghost function Teleport(ns: seq<Node>, w: Weights): Ranks
    requires ns != []
  {
    if Personalized(ns, w)
    then map n | n in ns :: WeightOf(w, n) / WeightTotal(w)
    else map n | n in ns :: 1.0 / |ns| as real
  }

  ghost function RankOf(g: Graph, w: Weights, d: real, maxIterations: int, eps: real): Ranks {
    if g.nodes == [] then map[] else
      var pers := Teleport(g.nodes, w);
      Power(g, pers, d, eps, if maxIterations < 0 then 0 else maxIterations, pers).ranks
  }

  // ----- what the ranks are, told by the edges -----

  // The weight that leaves n.
  ghost function Leaving(edges: seq<RankEdge>, n: Node): real {
    if edges == [] then 0.0 else (if edges[0].from == n then edges[0].weight else 0.0) + Leaving(edges[1..], n)
  }

  // What the nodes hold that nothing leaves.
  ghost function Held(edges: seq<RankEdge>, ns: seq<Node>, x: Ranks): real {
    if ns == [] then 0.0
    else (if ns[0] in x && Leaving(edges, ns[0]) == 0.0 then x[ns[0]] else 0.0) + Held(edges, ns[1..], x)
  }

  // What reaches n along some of the edges: of the rank of each source, the share of its edge.
  ghost function Arriving(edges: seq<RankEdge>, some: seq<RankEdge>, x: Ranks, n: Node): real {
    if some == [] then 0.0 else
      (if some[0].to == n then Carried(edges, x, some[0]) else 0.0) + Arriving(edges, some[1..], x, n)
  }

  ghost function Carried(edges: seq<RankEdge>, x: Ranks, e: RankEdge): real {
    if e.from in x && Leaving(edges, e.from) > 0.0 then x[e.from] * e.weight / Leaving(edges, e.from) else 0.0
  }

  // How far the ranks moved.
  ghost function Moved(ns: seq<Node>, x: Ranks, y: Ranks): real {
    if ns == [] then 0.0
    else (if ns[0] in x && ns[0] in y then Difference(x[ns[0]], y[ns[0]]) else 0.0) + Moved(ns[1..], x, y)
  }

  ghost function Difference(a: real, b: real): real {
    if a < b then b - a else a - b
  }

  ghost predicate RanksAll(ns: seq<Node>, x: Ranks) {
    forall n :: n in x <==> n in ns
  }

  // Each node gets its part of what is teleported and of what is held, and what reaches it.
  ghost predicate IsRound(g: Graph, pers: Ranks, d: real, x: Ranks, y: Ranks) {
    RanksAll(g.nodes, pers) && RanksAll(g.nodes, y) && forall n :: n in g.nodes ==>
      y[n] == (1.0 - d) * pers[n] + d * Held(g.edges, g.nodes, x) * pers[n] + d * Arriving(g.edges, g.edges, x, n)
  }

  ghost function Given(w: Weights): real {
    if w == [] then 0.0 else w[0].1 + Given(w[1..])
  }

  ghost predicate AreShares(ns: seq<Node>, w: Weights, pers: Ranks)
    requires forall n :: n in ns ==> n in pers
  {
    && (forall i :: 0 <= i < |w| && w[i].0 in ns ==> pers[w[i].0] * Given(w) == w[i].1)
    && (forall n :: n in ns && (forall i :: 0 <= i < |w| ==> w[i].0 != n) ==> pers[n] == 0.0)
  }

  // The given weights as shares of their total, or equal shares without a positive weight that counts.
  ghost predicate IsTeleport(ns: seq<Node>, w: Weights, pers: Ranks) {
    && RanksAll(ns, pers)
    && if Given(w) > 0.0 && exists i :: 0 <= i < |w| && w[i].0 in ns && w[i].1 > 0.0
       then AreShares(ns, w, pers)
       else forall n :: n in ns ==> pers[n] * |ns| as real == 1.0
  }

  // Round after round, none of which moves less than eps but perhaps the last.
  ghost predicate Rounds(g: Graph, pers: Ranks, d: real, eps: real, xs: seq<Ranks>) {
    && (forall i :: 0 <= i < |xs| ==> RanksAll(g.nodes, xs[i]))
    && (forall i :: 0 <= i < |xs| - 1 ==> IsRound(g, pers, d, xs[i], xs[i + 1]))
    && (forall i :: 0 <= i < |xs| - 2 ==> Moved(g.nodes, xs[i], xs[i + 1]) >= eps)
  }

  // A run from the teleport vector: rounds up to the first that moves less than eps, but no more than allowed.
  ghost predicate IsRun(g: Graph, d: real, maxIterations: int, eps: real, xs: seq<Ranks>) {
    && xs != [] && Rounds(g, xs[0], d, eps, xs)
    && (|xs| > 1 ==> |xs| - 1 <= maxIterations)
    && (|xs| - 1 < maxIterations ==> |xs| > 1 && Moved(g.nodes, xs[|xs| - 2], xs[|xs| - 1]) < eps)
  }

  ghost predicate IsRanking(g: Graph, w: Weights, d: real, maxIterations: int, eps: real, rank: Ranks) {
    if g.nodes == [] then rank == map[]
    else exists xs :: IsRun(g, d, maxIterations, eps, xs) && IsTeleport(g.nodes, w, xs[0]) && rank == xs[|xs| - 1]
  }

  lemma {:induction false} LeavingIsOut(edges: seq<RankEdge>, n: Node)
    ensures Leaving(edges, n) == OutWeight(edges, n)
  {
    if edges != [] {
      LeavingIsOut(edges[1..], n);
      SumFront(edges, InClass(Weight(), Source(), n));
    }
  }

  lemma {:induction false} HeldIsDangling(edges: seq<RankEdge>, ns: seq<Node>, x: Ranks)
    ensures Held(edges, ns, x) == Sum(ns, IfDangling(edges, Reading(x)))
  {
    if ns != [] {
      HeldIsDangling(edges, ns[1..], x);
      LeavingIsOut(edges, ns[0]);
      SumFront(ns, IfDangling(edges, Reading(x)));
    }
  }

  lemma {:induction false} ArrivingIsInflow(edges: seq<RankEdge>, some: seq<RankEdge>, x: Ranks, n: Node)
    ensures Arriving(edges, some, x, n) == Sum(some, InClass(Share(edges, Reading(x)), Target(), n))
  {
    if some != [] {
      ArrivingIsInflow(edges, some[1..], x, n);
      CarriedIsShare(edges, x, some[0]);
      hide Carried, Share;
      SumFront(some, InClass(Share(edges, Reading(x)), Target(), n));
      assert Target()(some[0]) == some[0].to;
    }
  }

  lemma CarriedIsShare(edges: seq<RankEdge>, x: Ranks, e: RankEdge)
    ensures Carried(edges, x, e) == Share(edges, Reading(x))(e)
  {
    LeavingIsOut(edges, e.from);
    hide OutWeight, Leaving;
    var mass, ow := Reading(x)(e.from), OutWeight(edges, e.from);
    if e.from !in x && ow > 0.0 {
      assert mass * e.weight / ow == 0.0;
    }
  }

  lemma {:induction false} MovedIsDistance(ns: seq<Node>, x: Ranks, y: Ranks)
    requires forall n :: n in ns ==> n in x && n in y
    ensures Moved(ns, x, y) == Distance(ns, x, y)
  {
    if ns != [] {
      MovedIsDistance(ns[1..], x, y);
      SumFront(ns, Gap(x, y));
    }
  }

  lemma BlendIs(d: real, held: real, p: real, arriving: real)
    ensures Blend(d, held, p, arriving) == (1.0 - d) * p + d * held * p + d * arriving
  {}

  lemma StepIsRound(g: Graph, pers: Ranks, d: real, x: Ranks)
    requires RanksAll(g.nodes, pers)
    ensures IsRound(g, pers, d, x, Step(g, pers, d, x))
  {
    HeldIsDangling(g.edges, g.nodes, x);
    hide Held, Arriving, Blend;
    forall n | n in g.nodes
      ensures NodeRank(g, pers, d, x, n)
           == Blend(d, Held(g.edges, g.nodes, x), pers[n], Arriving(g.edges, g.edges, x, n))
    {
      ArrivingIsInflow(g.edges, g.edges, x, n);
    }
    hide NodeRank;
    forall n | n in g.nodes
      ensures NodeRank(g, pers, d, x, n) == (1.0 - d) * pers[n] + d * Held(g.edges, g.nodes, x) * pers[n]
                                            + d * Arriving(g.edges, g.edges, x, n)
    {
      BlendIs(d, Held(g.edges, g.nodes, x), pers[n], Arriving(g.edges, g.edges, x, n));
    }
  }

  lemma StepRanksAll(g: Graph, pers: Ranks, d: real, x: Ranks)
    requires RanksAll(g.nodes, x)
    ensures RanksAll(g.nodes, Step(g, pers, d, x))
    ensures forall n :: n in g.nodes ==> n in x && n in Step(g, pers, d, x)
  {}

  lemma RoundsFront(g: Graph, pers: Ranks, d: real, eps: real, x: Ranks, more: seq<Ranks>)
    requires more != [] && RanksAll(g.nodes, x) && Rounds(g, pers, d, eps, more)
    requires IsRound(g, pers, d, x, more[0]) && Moved(g.nodes, x, more[0]) >= eps
    ensures Rounds(g, pers, d, eps, [x] + more)
  {
    hide IsRound, RanksAll, Moved;
    var xs := [x] + more;
    assert xs[1..] == more;
    forall i | 0 < i < |xs| - 1
      ensures IsRound(g, pers, d, xs[i], xs[i + 1])
      ensures i < |xs| - 2 ==> Moved(g.nodes, xs[i], xs[i + 1]) >= eps
    {
      assert xs[i] == more[i - 1] && xs[i + 1] == more[i];
    }
  }

  lemma {:induction false} PowerIsRun(g: Graph, pers: Ranks, d: real, eps: real, fuel: nat, x: Ranks)
      returns (xs: seq<Ranks>)
    requires RanksAll(g.nodes, pers) && RanksAll(g.nodes, x)
    ensures xs != [] && xs[0] == x && xs[|xs| - 1] == Power(g, pers, d, eps, fuel, x).ranks
    ensures Rounds(g, pers, d, eps, xs)
    ensures |xs| - 1 <= fuel
    ensures |xs| - 1 < fuel ==> |xs| > 1 && Moved(g.nodes, xs[|xs| - 2], xs[|xs| - 1]) < eps
  {
    hide *;
    PowerStep(g, pers, d, eps, fuel, x);
    OneRound(g, pers, d, eps, x);
    var next := Step(g, pers, d, x);
    if fuel == 0 {
      xs := [x];
    } else if Distance(g.nodes, x, next) < eps {
      xs := [x, next];
    } else {
      var more := PowerIsRun(g, pers, d, eps, fuel - 1, next);
      RoundsFront(g, pers, d, eps, x, more);
      xs := [x] + more;
    }
  }

  lemma PowerStep(g: Graph, pers: Ranks, d: real, eps: real, fuel: nat, x: Ranks)
    ensures fuel == 0 ==> Power(g, pers, d, eps, fuel, x).ranks == x
    ensures fuel > 0 ==>
      var next := Step(g, pers, d, x);
      var stop := Distance(g.nodes, x, next) < eps;
      Power(g, pers, d, eps, fuel, x) == if stop then Outcome(next, true) else Power(g, pers, d, eps, fuel - 1, next)
  {
    hide Step, Distance;
  }

  lemma OneRound(g: Graph, pers: Ranks, d: real, eps: real, x: Ranks)
    requires RanksAll(g.nodes, pers) && RanksAll(g.nodes, x)
    ensures var next := Step(g, pers, d, x);
      && RanksAll(g.nodes, next) && IsRound(g, pers, d, x, next)
      && Moved(g.nodes, x, next) == Distance(g.nodes, x, next)
      && Rounds(g, pers, d, eps, [x]) && Rounds(g, pers, d, eps, [x, next])
  {
    StepIsRound(g, pers, d, x);
    StepRanksAll(g, pers, d, x);
    MovedIsDistance(g.nodes, x, Step(g, pers, d, x));
    hide IsRound, Moved, Distance, RanksAll, Step;
  }

  lemma {:induction false} GivenIsTotal(w: Weights)
    ensures Given(w) == WeightTotal(w)
  {
    if w != [] {
      GivenIsTotal(w[1..]);
      SumFront(w, (p: (Node, real)) => p.1);
    }
  }

  lemma {:induction false} WeightIsGiven(w: Weights, n: Node)
    requires DistinctKeys(w)
    ensures forall i :: 0 <= i < |w| && w[i].0 == n ==> WeightOf(w, n) == w[i].1
    ensures (forall i :: 0 <= i < |w| ==> w[i].0 != n) ==> WeightOf(w, n) == 0.0
  {
    if w != [] {
      WeightIsGiven(w[1..], n);
      forall i | 0 <= i < |w| && w[i].0 == n ensures WeightOf(w, n) == w[i].1 {
        if i > 0 { assert w[1..][i - 1] == w[i]; }
      }
    }
  }

  // Whether the weights count.
  lemma PersonalizedIsGiven(ns: seq<Node>, w: Weights)
    requires DistinctKeys(w)
    ensures Personalized(ns, w) <==> Given(w) > 0.0 && exists i :: 0 <= i < |w| && w[i].0 in ns && w[i].1 > 0.0
  {
    GivenIsTotal(w);
    hide WeightTotal, Given;
    forall n ensures (exists i :: 0 <= i < |w| && w[i].0 == n && w[i].1 > 0.0) <==> WeightOf(w, n) > 0.0 {
      WeightIsGiven(w, n);
    }
  }

  lemma SharesAreGiven(ns: seq<Node>, w: Weights, pers: Ranks)
    requires DistinctKeys(w) && Given(w) > 0.0
    requires forall n :: n in ns ==> n in pers && pers[n] == WeightOf(w, n) / Given(w)
    ensures AreShares(ns, w, pers)
  {
    var total := Given(w);
    hide DistinctKeys, WeightOf, Given, RanksAll;
    forall i | 0 <= i < |w| && w[i].0 in ns ensures pers[w[i].0] * total == w[i].1 {
      WeightIsGiven(w, w[i].0);
      DivideBack(w[i].1, total);
    }
    forall n | n in ns && forall i :: 0 <= i < |w| ==> w[i].0 != n ensures pers[n] == 0.0 {
      WeightIsGiven(w, n);
      DivideBack(0.0, total);
    }
  }

  lemma TeleportIsGiven(ns: seq<Node>, w: Weights)
    requires ns != [] && DistinctKeys(w)
    ensures IsTeleport(ns, w, Teleport(ns, w))
  {
    PersonalizedIsGiven(ns, w);
    GivenIsTotal(w);
    hide DistinctKeys, WeightOf, WeightTotal, Given, Personalized, AreShares;
    if Personalized(ns, w) {
      SharesAreGiven(ns, w, Teleport(ns, w));
    } else {
      DivideBack(1.0, |ns| as real);
    }
  }

  lemma DivideBack(x: real, y: real)
    requires y > 0.0
    ensures x / y * y == x && 0.0 / y == 0.0
  {}

  // The ranks are those of the run.
  lemma RanksAreRun(g: Graph, w: Weights, d: real, maxIterations: int, eps: real)
    requires DistinctKeys(w)
    ensures IsRanking(g, w, d, maxIterations, eps, RankOf(g, w, d, maxIterations, eps))
  {
    if g.nodes != [] {
      var pers := Teleport(g.nodes, w);
      TeleportIsGiven(g.nodes, w);
      hide Power, IsTeleport, IsRound, Moved;
      assert RanksAll(g.nodes, pers);
      var xs := PowerIsRun(g, pers, d, eps, if maxIterations < 0 then 0 else maxIterations, pers);
      assert IsRun(g, d, maxIterations, eps, xs);
    }
  }

  // ----- the algorithm -----

  method TeleportVector(ns: seq<Node>, w: Weights) returns (pers: Ranks)
    requires ns != []
    ensures pers == Teleport(ns, w)
  {
    pers := map[];
    var n := |ns| as real;
    if |w| > 0 {
      var sum := 0.0;
      for i := 0 to |w|
        invariant sum == Sum(w[..i], (p: (Node, real)) => p.1)
      {
        SumStep(w, i, (p: (Node, real)) => p.1);
        sum := sum + w[i].1;
      }
      assert w[..|w|] == w;
      if sum > 0.0 {
        var hasKey := false;
        for i := 0 to |ns|
          invariant hasKey <==> exists m :: m in ns[..i] && WeightOf(w, m) > 0.0
          invariant pers == map m | m in ns[..i] :: WeightOf(w, m) / sum
        {
          var v := WeightOf(w, ns[i]);
          if v > 0.0 { hasKey := true; }
          pers := pers[ns[i] := v / sum];
          assert forall m :: m in ns[..i + 1] <==> m in ns[..i] || m == ns[i];
        }
        assert ns[..|ns|] == ns;
        if hasKey { return; }
      }
    } else {
      assert w == [];
    }
    assert !Personalized(ns, w);
    for i := 0 to |ns|
      invariant pers.Keys <= set m | m in ns
      invariant forall m :: m in ns[..i] ==> m in pers && pers[m] == 1.0 / n
    {
      pers := pers[ns[i] := 1.0 / n];
    }
  }

  method Rank(nodes: seq<Node>, edges: seq<RankEdge>, personalization: Weights := [],
              damping: real := DEFAULT_DAMPING, maxIterations: int := DEFAULT_MAX_ITERATIONS,
              epsilon: real := DEFAULT_EPSILON)
    returns (rank: Ranks)
    ensures rank == RankOf(Graph(nodes, edges), personalization, damping, maxIterations, epsilon)
    ensures DistinctKeys(personalization) ==>
      IsRanking(Graph(nodes, edges), personalization, damping, maxIterations, epsilon, rank)
  {
    if DistinctKeys(personalization) {
      RanksAreRun(Graph(nodes, edges), personalization, damping, maxIterations, epsilon);
    }
    hide IsRanking;
    if |nodes| == 0 { return map[]; }
    var incoming := IncomingIndex(nodes, edges);
    var outWeight := OutWeights(edges);
    var persVec := TeleportVector(nodes, personalization);
    rank := Iterate(Graph(nodes, edges), persVec, damping, maxIterations, epsilon, incoming, outWeight);
  }

  method Iterate(g: Graph, persVec: Ranks, d: real, maxIterations: int, epsilon: real,
                 incoming: map<Node, seq<RankEdge>>, outWeight: Ranks)
    returns (rank: Ranks)
    requires forall n :: n in g.nodes ==> n in persVec
    requires incoming == map n | n in g.nodes :: IncomingOf(g.edges, n)
    requires forall n :: Get(outWeight, n, 0.0) == OutWeight(g.edges, n)
    ensures rank == Power(g, persVec, d, epsilon, if maxIterations < 0 then 0 else maxIterations, persVec).ranks
  {
    rank := persVec;
    ghost var fuel: nat := if maxIterations < 0 then 0 else maxIterations;
    var iter := 0;
    while iter < maxIterations
      invariant iter <= fuel
      invariant Power(g, persVec, d, epsilon, fuel, persVec) == Power(g, persVec, d, epsilon, fuel - iter, rank)
    {
      var next := NextRanks(g, persVec, d, rank, incoming, outWeight);
      var diff := Diff(g.nodes, rank, next);
      rank := next;
      if diff < epsilon { break; }
      iter := iter + 1;
    }
  }

  // The edges into n, in order.
  function IncomingOf(edges: seq<RankEdge>, n: Node): seq<RankEdge> {
    if edges == [] then []
    else IncomingOf(edges[..|edges| - 1], n) + if edges[|edges| - 1].to == n then [edges[|edges| - 1]] else []
  }

  lemma {:induction false} SumIncoming(edges: seq<RankEdge>, n: Node, f: RankEdge -> real)
    ensures Sum(IncomingOf(edges, n), f) == Sum(edges, InClass(f, Target(), n))
  {
    if edges != [] {
      var init, last := edges[..|edges| - 1], edges[|edges| - 1];
      SumIncoming(init, n, f);
      assert Target()(last) == last.to;
      SumSnoc(IncomingOf(init, n), last, f);
      assert IncomingOf(init, n) + [] == IncomingOf(init, n);
    }
  }

  method IncomingIndex(nodes: seq<Node>, edges: seq<RankEdge>) returns (incoming: map<Node, seq<RankEdge>>)
    ensures incoming == map n | n in nodes :: IncomingOf(edges, n)
  {
    incoming := map n | n in nodes :: [];
    for i := 0 to |edges|
      invariant incoming.Keys == set n | n in nodes
      invariant forall n :: n in incoming ==> incoming[n] == IncomingOf(edges[..i], n)
    {
      assert edges[..i + 1][..i] == edges[..i];
      if edges[i].to in incoming {
        incoming := incoming[edges[i].to := incoming[edges[i].to] + [edges[i]]];
      }
    }
    assert edges[..|edges|] == edges;
  }

  method OutWeights(edges: seq<RankEdge>) returns (outWeight: Ranks)
    ensures forall n :: Get(outWeight, n, 0.0) == OutWeight(edges, n)
  {
    outWeight := map[];
    for i := 0 to |edges|
      invariant forall n :: Get(outWeight, n, 0.0) == OutWeight(edges[..i], n)
    {
      var was, e := outWeight, edges[i];
      outWeight := outWeight[e.from := Get(outWeight, e.from, 0.0) + e.weight];
      forall n
        ensures Get(outWeight, n, 0.0) == OutWeight(edges[..i + 1], n)
      {
        assert Get(was, n, 0.0) == OutWeight(edges[..i], n);
        SumStep(edges, i, InClass(Weight(), Source(), n));
        assert InClass(Weight(), Source(), n)(e) == if e.from == n then e.weight else 0.0;
      }
    }
    assert edges[..|edges|] == edges;
  }

  method Diff(nodes: seq<Node>, rank: Ranks, next: Ranks) returns (diff: real)
    ensures diff == Distance(nodes, rank, next)
  {
    diff := 0.0;
    for i := 0 to |nodes|
      invariant diff == Sum(nodes[..i], Gap(rank, next))
    {
      SumStep(nodes, i, Gap(rank, next));
      diff := diff + Abs(Get(next, nodes[i], 0.0) - Get(rank, nodes[i], 0.0));
    }
    assert nodes[..|nodes|] == nodes;
  }

  method DanglingMass(g: Graph, rank: Ranks, outWeight: Ranks) returns (dangling: real)
    requires forall n :: Get(outWeight, n, 0.0) == OutWeight(g.edges, n)
    ensures dangling == Dangling(g, Reading(rank))
  {
    dangling := 0.0;
    for i := 0 to |g.nodes|
      invariant dangling == Sum(g.nodes[..i], IfDangling(g.edges, Reading(rank)))
    {
      SumStep(g.nodes, i, IfDangling(g.edges, Reading(rank)));
      if Get(outWeight, g.nodes[i], 0.0) == 0.0 {
        dangling := dangling + Get(rank, g.nodes[i], 0.0);
      }
    }
    assert g.nodes[..|g.nodes|] == g.nodes;
  }

  method NodeInflow(edges: seq<RankEdge>, node: Node, rank: Ranks, edgesIn: seq<RankEdge>, outWeight: Ranks)
    returns (sum: real)
    requires edgesIn == IncomingOf(edges, node)
    requires forall n :: Get(outWeight, n, 0.0) == OutWeight(edges, n)
    ensures sum == Inflow(edges, Reading(rank))(node)
  {
    sum := 0.0;
    ghost var share := Share(edges, Reading(rank));
    for j := 0 to |edgesIn|
      invariant sum == Sum(edgesIn[..j], share)
    {
      SumStep(edgesIn, j, share);
      var fromRank := Get(rank, edgesIn[j].from, 0.0);
      var ow := Get(outWeight, edgesIn[j].from, 0.0);
      assert share(edgesIn[j]) == Along(fromRank, edgesIn[j].weight, ow);
      if ow > 0.0 { sum := sum + Along(fromRank, edgesIn[j].weight, ow); }
    }
    assert edgesIn[..|edgesIn|] == edgesIn;
    SumIncoming(edges, node, share);
  }

  method NextRanks(g: Graph, persVec: Ranks, d: real, rank: Ranks,
                   incoming: map<Node, seq<RankEdge>>, outWeight: Ranks)
    returns (next: Ranks)
    requires forall n :: n in g.nodes ==> n in persVec
    requires incoming == map n | n in g.nodes :: IncomingOf(g.edges, n)
    requires forall n :: Get(outWeight, n, 0.0) == OutWeight(g.edges, n)
    ensures next == Step(g, persVec, d, rank)
  {
    var dangling := DanglingMass(g, rank, outWeight);
    next := map[];
    for i := 0 to |g.nodes|
      invariant next.Keys == set n | n in g.nodes[..i]
      invariant forall n :: n in next ==> next[n] == NodeRank(g, persVec, d, rank, n)
    {
      hide IncomingOf, OutWeight, Inflow, Blend;
      var node := g.nodes[i];
      var sum := NodeInflow(g.edges, node, rank, incoming[node], outWeight);
      next := next[node := Blend(d, dangling, persVec[node], sum)];
      assert forall m :: m in g.nodes[..i + 1] <==> m in g.nodes[..i] || m == node;
    }
    assert g.nodes[..|g.nodes|] == g.nodes;
  }
}
