// Query-anchored PageRank over a bounded neighbourhood (src/codemap/build.ts).
module AnchoredRank {
  import opened Sums
  import opened Basics
  import opened PageRank
  import opened PageRankTheorems
  import opened Neighborhood

  const DEFAULT_DEPTH := 2
  const ANCHOR_WEIGHT := 10.0

  // ----- specification -----

  function EdgesFrom(edges: seq<RankEdge>, n: Node): seq<RankEdge> {
    if edges == [] then []
    else EdgesFrom(edges[..|edges| - 1], n) + if edges[|edges| - 1].from == n then [edges[|edges| - 1]] else []
  }

  ghost function OutIndex(nodes: seq<Node>, edges: seq<RankEdge>): map<Node, seq<RankEdge>> {
    map n | n in nodes :: EdgesFrom(edges, n)
  }

  ghost function PrebuiltOf(nodes: seq<Node>, edges: seq<RankEdge>): Prebuilt {
    Prebuilt(Forward(nodes, edges), Backward(nodes, edges), OutIndex(nodes, edges))
  }

  // The edges with both ends in sub, in order.
  function Inner(edges: seq<RankEdge>, sub: seq<Node>): seq<RankEdge> {
    if edges == [] then [] else
      var last := edges[|edges| - 1];
      Inner(edges[..|edges| - 1], sub) + if last.from in sub && last.to in sub then [last] else []
  }

  // The edges of `out` whose target is in sub.
  function Kept(out: seq<RankEdge>, sub: seq<Node>): seq<RankEdge> {
    if out == [] then [] else
      var last := out[|out| - 1];
      Kept(out[..|out| - 1], sub) + if last.to in sub then [last] else []
  }

  function IndexedEdges(outEdges: map<Node, seq<RankEdge>>, from: seq<Node>, sub: seq<Node>): seq<RankEdge> {
    if from == [] then [] else
      var n := from[|from| - 1];
      IndexedEdges(outEdges, from[..|from| - 1], sub) + Kept(if n in outEdges then outEdges[n] else [], sub)
  }

  function Boosts(from: seq<Node>, boosted: set<Node>): Weights {
    if from == [] then [] else
      var n := from[|from| - 1];
      Boosts(from[..|from| - 1], boosted) + if n in boosted then [(n, ANCHOR_WEIGHT)] else []
  }

  function Slice(s: seq<Node>, max: Option<nat>): seq<Node> {
    if max.Some? && |s| > max.value then s[..max.value] else s
  }

  ghost function SubNodes(nodeKeys: seq<Node>, edges: seq<RankEdge>, anchors: seq<Node>, depth: int,
                          max: Option<nat>, prebuilt: Option<Prebuilt>): seq<Node> {
    var fwd := if prebuilt.Some? then prebuilt.value.fwd else Forward(nodeKeys, edges);
    var rev := if prebuilt.Some? then prebuilt.value.rev else Backward(nodeKeys, edges);
    Slice(Surroundings(fwd, rev, anchors, depth), max)
  }

  ghost function SubEdges(edges: seq<RankEdge>, sub: seq<Node>, prebuilt: Option<Prebuilt>): seq<RankEdge> {
    if prebuilt.Some? then IndexedEdges(prebuilt.value.outEdges, sub, sub) else Inner(edges, sub)
  }

  // The nodes that are ranked: the whole graph when there is no anchor.
  ghost function RankedNodes(nodeKeys: seq<Node>, edges: seq<RankEdge>, anchors: seq<Node>, depth: int,
                             max: Option<nat>, prebuilt: Option<Prebuilt>): seq<Node> {
    if anchors == [] then nodeKeys else SubNodes(nodeKeys, edges, anchors, depth, max, prebuilt)
  }

  ghost function AnchoredRanks(nodeKeys: seq<Node>, edges: seq<RankEdge>, anchors: seq<Node>, depth: int, d: real,
                               iterations: int, max: Option<nat>, prebuilt: Option<Prebuilt>,
                               boosted: set<Node>): Ranks {
    var ns := RankedNodes(nodeKeys, edges, anchors, depth, max, prebuilt);
    if anchors == [] then RankOf(Graph(ns, edges), [], d, DEFAULT_MAX_ITERATIONS, DEFAULT_EPSILON)
    else RankOf(Graph(ns, SubEdges(edges, ns, prebuilt)), Boosts(ns, boosted), d, iterations, DEFAULT_EPSILON)
  }

  function Or<T>(o: Option<T>, default: T): T {
    if o.Some? then o.value else default
  }

  // ----- building the index and ranking -----

  method BuildBothAdjacency(nodes: seq<Node>, edges: seq<RankEdge>) returns (p: Prebuilt)
    ensures p == PrebuiltOf(nodes, edges)
  {
    var fwd := BuildAdjacency(nodes, edges);
    var rev := BuildAdjacency(nodes, Flip(edges));
    var outEdges := CollectOutEdges(nodes, edges);
    p := Prebuilt(fwd, rev, outEdges);
  }

  // The loop over the edges.
  method CollectOutEdges(nodes: seq<Node>, edges: seq<RankEdge>) returns (outEdges: map<Node, seq<RankEdge>>)
    ensures outEdges == OutIndex(nodes, edges)
  {
    outEdges := map n | n in nodes :: [];
    for i := 0 to |edges|
      invariant outEdges.Keys == set n | n in nodes
      invariant forall n :: n in nodes ==> outEdges[n] == EdgesFrom(edges[..i], n)
    {
      assert edges[..i + 1][..i] == edges[..i];
      if edges[i].from in outEdges {
        outEdges := outEdges[edges[i].from := outEdges[edges[i].from] + [edges[i]]];
      }
    }
    assert edges[..|edges|] == edges;
  }

  method CollectSubEdges(edges: seq<RankEdge>, sub: seq<Node>, prebuilt: Option<Prebuilt>)
    returns (subEdges: seq<RankEdge>)
    ensures subEdges == SubEdges(edges, sub, prebuilt)
  {
    if prebuilt.Some? {
      subEdges := IndexedSubEdges(prebuilt.value.outEdges, sub);
    } else {
      subEdges := ScannedSubEdges(edges, sub);
    }
  }

  // From the index: the edges out of each node of the subgraph, in turn.
  method IndexedSubEdges(index: map<Node, seq<RankEdge>>, sub: seq<Node>) returns (subEdges: seq<RankEdge>)
    ensures subEdges == IndexedEdges(index, sub, sub)
  {
    subEdges := [];
    for i := 0 to |sub|
      invariant subEdges == IndexedEdges(index, sub[..i], sub)
    {
      hide Kept;
      assert sub[..i + 1][..i] == sub[..i];
      var kept := KeepInside(if sub[i] in index then index[sub[i]] else [], sub);
      subEdges := subEdges + kept;
    }
    assert sub[..|sub|] == sub;
  }

  method KeepInside(out: seq<RankEdge>, sub: seq<Node>) returns (kept: seq<RankEdge>)
    ensures kept == Kept(out, sub)
  {
    kept := [];
    for j := 0 to |out|
      invariant kept == Kept(out[..j], sub)
    {
      assert out[..j + 1][..j] == out[..j];
      if out[j].to in sub { kept := kept + [out[j]]; }
    }
    assert out[..|out|] == out;
  }

  method ScannedSubEdges(edges: seq<RankEdge>, sub: seq<Node>) returns (subEdges: seq<RankEdge>)
    ensures subEdges == Inner(edges, sub)
  {
    subEdges := [];
    for i := 0 to |edges|
      invariant subEdges == Inner(edges[..i], sub)
    {
      assert edges[..i + 1][..i] == edges[..i];
      if edges[i].from in sub && edges[i].to in sub { subEdges := subEdges + [edges[i]]; }
    }
    assert edges[..|edges|] == edges;
  }

  method AnchoredPageRank(nodeKeys: seq<Node>, edges: seq<RankEdge>, anchors: seq<Node>, depth: int := DEFAULT_DEPTH,
                          damping: Option<real> := None, maxIterations: Option<int> := None,
                          maxSubgraph: Option<nat> := None, prebuilt: Option<Prebuilt> := None,
                          personalize: Option<seq<Node>> := None)
    returns (rank: Ranks)
    ensures rank == AnchoredRanks(nodeKeys, edges, anchors, depth, Or(damping, DEFAULT_DAMPING),
                                  Or(maxIterations, DEFAULT_MAX_ITERATIONS), maxSubgraph, prebuilt,
                                  Elements(Or(personalize, anchors)))
  {
    if |anchors| == 0 {
      rank := Rank(nodeKeys, edges, [], Or(damping, DEFAULT_DAMPING));
      return;
    }
    var focus := Or(personalize, anchors);
    var persSet := set n | n in focus;
    var sub := ExpandNeighborhood(nodeKeys, edges, anchors, depth, prebuilt);
    if maxSubgraph.Some? && |sub| > maxSubgraph.value { sub := sub[..maxSubgraph.value]; }
    var subEdges := CollectSubEdges(edges, sub, prebuilt);
    var pers: Weights := [];
    for i := 0 to |sub|
      invariant pers == Boosts(sub[..i], persSet)
    {
      assert sub[..i + 1][..i] == sub[..i];
      if sub[i] in persSet { pers := pers + [(sub[i], ANCHOR_WEIGHT)]; }
    }
    assert sub[..|sub|] == sub;
    rank := Rank(sub, subEdges, pers, Or(damping, DEFAULT_DAMPING), Or(maxIterations, DEFAULT_MAX_ITERATIONS));
  }

  // ----- the subgraph meets what PageRank needs -----

  lemma {:induction false} BoostsAreInside(from: seq<Node>, boosted: set<Node>)
    requires Distinct(from)
    ensures DistinctKeys(Boosts(from, boosted)) && NonNegativeWeights(Boosts(from, boosted))
    ensures forall p :: p in Boosts(from, boosted) ==> p.0 in from
  {
    if from != [] {
      BoostsAreInside(from[..|from| - 1], boosted);
      var init, n := Boosts(from[..|from| - 1], boosted), from[|from| - 1];
      assert forall p :: p in init ==> p.0 != n;
      assert forall i :: 0 <= i < |init| ==> init[i] in init;
    }
  }

  lemma {:induction false} InnerIsInside(edges: seq<RankEdge>, sub: seq<Node>)
    ensures forall e :: e in Inner(edges, sub) ==> e in edges && e.from in sub && e.to in sub
  {
    if edges != [] {
      InnerIsInside(edges[..|edges| - 1], sub);
    }
  }

  lemma {:induction false} KeptIsInside(out: seq<RankEdge>, sub: seq<Node>)
    ensures forall e :: e in Kept(out, sub) ==> e in out && e.to in sub
  {
    if out != [] {
      KeptIsInside(out[..|out| - 1], sub);
    }
  }

  lemma {:induction false} EdgesFromAreEdges(edges: seq<RankEdge>, n: Node)
    ensures forall e :: e in EdgesFrom(edges, n) ==> e in edges && e.from == n
  {
    if edges != [] {
      EdgesFromAreEdges(edges[..|edges| - 1], n);
    }
  }

  lemma {:induction false} IndexedIsInside(nodes: seq<Node>, edges: seq<RankEdge>, from: seq<Node>, sub: seq<Node>)
    ensures forall e :: e in IndexedEdges(OutIndex(nodes, edges), from, sub) ==>
      e in edges && e.from in from && e.to in sub
  {
    if from != [] {
      var n := from[|from| - 1];
      IndexedIsInside(nodes, edges, from[..|from| - 1], sub);
      EdgesFromAreEdges(edges, n);
      KeptIsInside(EdgesFrom(edges, n), sub);
    }
  }

  ghost predicate Usable(nodeKeys: seq<Node>, edges: seq<RankEdge>, prebuilt: Option<Prebuilt>) {
    && (forall e :: e in edges ==> e.weight >= 0.0)
    && (prebuilt.Some? ==> prebuilt.value == PrebuiltOf(nodeKeys, edges))
  }

  // The subgraph starts with the first anchor and repeats nothing.
  lemma SubNodesFacts(nodeKeys: seq<Node>, edges: seq<RankEdge>, anchors: seq<Node>, depth: int, max: Option<nat>,
                      prebuilt: Option<Prebuilt>)
    requires prebuilt.Some? ==> prebuilt.value == PrebuiltOf(nodeKeys, edges)
    requires anchors != [] && max != Some(0)
    ensures var sub := SubNodes(nodeKeys, edges, anchors, depth, max, prebuilt);
      sub != [] && sub[0] == anchors[0] && Distinct(sub)
  {
    var fwd, rev := Forward(nodeKeys, edges), Backward(nodeKeys, edges);
    NeighborhoodIsSound(nodeKeys, edges, anchors, depth);
    AddKeepsFirst(anchors);
    SliceFacts(Surroundings(fwd, rev, anchors, depth), max, anchors[0]);
  }

  lemma AddKeepsFirst(anchors: seq<Node>)
    requires anchors != []
    ensures Add([], anchors) != [] && Add([], anchors)[0] == anchors[0]
  {
    AddFacts([anchors[0]], anchors[1..]);
    assert [] + [anchors[0]] == [anchors[0]];
  }

  lemma SliceFacts(s: seq<Node>, max: Option<nat>, first: Node)
    requires s != [] && s[0] == first && Distinct(s) && max != Some(0)
    ensures Slice(s, max) != [] && Slice(s, max)[0] == first && Distinct(Slice(s, max))
  {}

  lemma SubGraphIsProper(nodeKeys: seq<Node>, edges: seq<RankEdge>, sub: seq<Node>, prebuilt: Option<Prebuilt>)
    requires Usable(nodeKeys, edges, prebuilt) && Distinct(sub)
    ensures Proper(Graph(sub, SubEdges(edges, sub, prebuilt)))
  {
    InnerIsInside(edges, sub);
    IndexedIsInside(nodeKeys, edges, sub, sub);
  }

  // A query returns a probability distribution over what it ranks, exactly when it ranks something: the subgraph, which
  // starts with the first anchor, or without anchors the whole graph. Nothing is ranked with room for no node.
  lemma AnchoredIsDistribution(nodeKeys: seq<Node>, edges: seq<RankEdge>, anchors: seq<Node>, depth: int, d: real,
                               iterations: int, max: Option<nat>, prebuilt: Option<Prebuilt>, boosted: set<Node>)
    requires Usable(nodeKeys, edges, prebuilt) && 0.0 <= d <= 1.0
    requires anchors == [] ==> Proper(Graph(nodeKeys, edges))
    ensures var ns := RankedNodes(nodeKeys, edges, anchors, depth, max, prebuilt);
      var ranks := AnchoredRanks(nodeKeys, edges, anchors, depth, d, iterations, max, prebuilt, boosted);
      && (Distribution(ns, ranks) <==> ns != [])
      && (ns == [] ==> ranks == map[])
      && (ns == [] <==> if anchors == [] then nodeKeys == [] else max == Some(0))
      && (anchors != [] && ns != [] ==> ns[0] == anchors[0])
  {
    hide SubNodes, Distribution, RankOf, Boosts, SubEdges, Proper;
    var ns := RankedNodes(nodeKeys, edges, anchors, depth, max, prebuilt);
    NothingRanked();
    if anchors == [] {
      if ns != [] {
        NoWeights(ns);
        RankIsDistribution(Graph(ns, edges), [], d, DEFAULT_MAX_ITERATIONS, DEFAULT_EPSILON);
      }
    } else if max == Some(0) {
      EmptySlice(nodeKeys, edges, anchors, depth, prebuilt);
    } else {
      SubNodesFacts(nodeKeys, edges, anchors, depth, max, prebuilt);
      SubGraphIsProper(nodeKeys, edges, ns, prebuilt);
      BoostsAreInside(ns, boosted);
      RankIsDistribution(Graph(ns, SubEdges(edges, ns, prebuilt)), Boosts(ns, boosted), d, iterations, DEFAULT_EPSILON);
    }
  }

  lemma NothingRanked()
    ensures !Distribution([], map[])
    ensures forall edges, w, d, iterations :: RankOf(Graph([], edges), w, d, iterations, DEFAULT_EPSILON) == map[]
  {}

  lemma NoWeights(ns: seq<Node>)
    ensures DistinctKeys([]) && NonNegativeWeights([]) && !WeightOutside(ns, [])
  {}

  lemma EmptySlice(nodeKeys: seq<Node>, edges: seq<RankEdge>, anchors: seq<Node>, depth: int,
                   prebuilt: Option<Prebuilt>)
    ensures SubNodes(nodeKeys, edges, anchors, depth, Some(0), prebuilt) == []
  {}

  // ----- the index changes nothing -----

  // Two edge lists that no sum can tell apart.
  ghost predicate SameSums(a: seq<RankEdge>, b: seq<RankEdge>) {
    forall f: RankEdge -> real :: Sum(a, f) == Sum(b, f)
  }

  lemma SameStep(ns: seq<Node>, a: seq<RankEdge>, b: seq<RankEdge>, pers: Ranks, d: real, x: Ranks)
    requires SameSums(a, b)
    ensures Step(Graph(ns, a), pers, d, x) == Step(Graph(ns, b), pers, d, x)
  {
    var f := Reading(x);
    assert forall n :: OutWeight(a, n) == OutWeight(b, n);
    SumCong(ns, IfDangling(a, f), IfDangling(b, f));
    forall n ensures Inflow(a, f)(n) == Inflow(b, f)(n) {
      var ca, cb := InClass(Share(a, f), Target(), n), InClass(Share(b, f), Target(), n);
      assert Sum(a, ca) == Sum(b, ca);
      SumCong(b, ca, cb);
    }
    assert forall n :: NodeRank(Graph(ns, a), pers, d, x, n) == NodeRank(Graph(ns, b), pers, d, x, n);
  }

  lemma {:induction false} SamePower(ns: seq<Node>, a: seq<RankEdge>, b: seq<RankEdge>, pers: Ranks, d: real, eps: real,
                                     fuel: nat, x: Ranks)
    requires SameSums(a, b)
    ensures Power(Graph(ns, a), pers, d, eps, fuel, x) == Power(Graph(ns, b), pers, d, eps, fuel, x)
  {
    if fuel > 0 {
      SameStep(ns, a, b, pers, d, x);
      SamePower(ns, a, b, pers, d, eps, fuel - 1, Step(Graph(ns, a), pers, d, x));
    }
  }

  // f on the edges inside sub, and nothing elsewhere.
  ghost function Within(f: RankEdge -> real, sub: seq<Node>): RankEdge -> real {
    (e: RankEdge) => if e.from in sub && e.to in sub then f(e) else 0.0
  }

  lemma {:induction false} SumConcat<T>(s: seq<T>, t: seq<T>, f: T -> real)
    ensures Sum(s + t, f) == Sum(s, f) + Sum(t, f)
  {
    if t == [] {
      assert s + t == s;
    } else {
      SumConcat(s, t[..|t| - 1], f);
      assert s + t == (s + t[..|t| - 1]) + [t[|t| - 1]];
      SumSnoc(s + t[..|t| - 1], t[|t| - 1], f);
    }
  }

  lemma {:induction false} SumInner(edges: seq<RankEdge>, sub: seq<Node>, f: RankEdge -> real)
    ensures Sum(Inner(edges, sub), f) == Sum(edges, Within(f, sub))
  {
    if edges != [] {
      var init, last := edges[..|edges| - 1], edges[|edges| - 1];
      SumInner(init, sub, f);
      SumConcat(Inner(init, sub), if last.from in sub && last.to in sub then [last] else [], f);
      SumSnoc([], last, f);
      assert [] + [last] == [last];
    }
  }

  lemma {:induction false} SumKeptFrom(edges: seq<RankEdge>, n: Node, sub: seq<Node>, f: RankEdge -> real)
    requires n in sub
    ensures Sum(Kept(EdgesFrom(edges, n), sub), f) == Sum(edges, InClass(Within(f, sub), Source(), n))
  {
    if edges != [] {
      var init, last := edges[..|edges| - 1], edges[|edges| - 1];
      SumKeptFrom(init, n, sub, f);
      var c := InClass(Within(f, sub), Source(), n);
      assert c(last) == if last.from == n && last.to in sub then f(last) else 0.0;
      if last.from == n {
        assert EdgesFrom(edges, n)[..|EdgesFrom(edges, n)| - 1] == EdgesFrom(init, n);
        SumSnoc(Kept(EdgesFrom(init, n), sub), last, f);
        assert Kept(EdgesFrom(init, n), sub) + [] == Kept(EdgesFrom(init, n), sub);
      } else {
        assert EdgesFrom(edges, n) == EdgesFrom(init, n);
      }
    }
  }

  lemma {:induction false} SumIndexed(nodes: seq<Node>, edges: seq<RankEdge>, from: seq<Node>, sub: seq<Node>,
                                      f: RankEdge -> real)
    requires forall n :: n in from ==> n in sub
    requires forall e :: e in edges && e.from in sub && e.to in sub ==> e.from in nodes
    ensures Sum(IndexedEdges(OutIndex(nodes, edges), from, sub), f)
      == Sum(from, ClassSum(edges, Within(f, sub), Source()))
  {
    if from != [] {
      var init, n := from[..|from| - 1], from[|from| - 1];
      var out := if n in nodes then EdgesFrom(edges, n) else [];
      SumIndexed(nodes, edges, init, sub, f);
      SumConcat(IndexedEdges(OutIndex(nodes, edges), init, sub), Kept(out, sub), f);
      if n in nodes {
        SumKeptFrom(edges, n, sub, f);
      } else {
        SumZero(edges, InClass(Within(f, sub), Source(), n));
      }
    }
  }

  lemma IndexedSameSums(nodes: seq<Node>, edges: seq<RankEdge>, sub: seq<Node>)
    requires Distinct(sub)
    requires forall e :: e in edges && e.from in sub && e.to in sub ==> e.from in nodes
    ensures SameSums(IndexedEdges(OutIndex(nodes, edges), sub, sub), Inner(edges, sub))
  {
    forall f: RankEdge -> real
      ensures Sum(IndexedEdges(OutIndex(nodes, edges), sub, sub), f) == Sum(Inner(edges, sub), f)
    {
      SumIndexed(nodes, edges, sub, sub, f);
      SumByClass(sub, edges, Within(f, sub), Source());
      SumInner(edges, sub, f);
    }
  }

  // Ranking through the prebuilt index gives the ranks of the plain path, although it
  // walks the edges in another order.
  lemma PathsAgree(nodeKeys: seq<Node>, edges: seq<RankEdge>, anchors: seq<Node>, depth: int, d: real, iterations: int,
                   max: Option<nat>, w: Weights)
    requires forall e :: e in edges ==> e.from in nodeKeys
    ensures var prebuilt := Some(PrebuiltOf(nodeKeys, edges));
      var sub := SubNodes(nodeKeys, edges, anchors, depth, max, prebuilt);
      && sub == SubNodes(nodeKeys, edges, anchors, depth, max, None)
      && RankOf(Graph(sub, SubEdges(edges, sub, prebuilt)), w, d, iterations, DEFAULT_EPSILON)
         == RankOf(Graph(sub, SubEdges(edges, sub, None)), w, d, iterations, DEFAULT_EPSILON)
  {
    var sub := SubNodes(nodeKeys, edges, anchors, depth, max, None);
    NeighborhoodIsSound(nodeKeys, edges, anchors, depth);
    IndexedSameSums(nodeKeys, edges, sub);
    if sub != [] {
      var pers := Teleport(sub, w);
      SamePower(sub, IndexedEdges(OutIndex(nodeKeys, edges), sub, sub), Inner(edges, sub), pers, d, DEFAULT_EPSILON,
                if iterations < 0 then 0 else iterations, pers);
    }
  }

  // ----- what is ranked -----

  // Every boosted node of the subgraph weighs 10, and nothing else.
  ghost predicate IsBoost(sub: seq<Node>, boosted: set<Node>, w: Weights) {
    DistinctKeys(w) && forall n: Node, v: real :: (n, v) in w <==> n in sub && n in boosted && v == 10.0
  }

  lemma {:induction false} BoostsAreBoost(sub: seq<Node>, boosted: set<Node>)
    requires Distinct(sub)
    ensures IsBoost(sub, boosted, Boosts(sub, boosted))
  {
    BoostsAreInside(sub, boosted);
    if sub != [] {
      var init, n := sub[..|sub| - 1], sub[|sub| - 1];
      BoostsAreBoost(init, boosted);
      assert sub == init + [n];
    }
  }

  lemma {:induction false} InnerIsChosen(edges: seq<RankEdge>, sub: seq<Node>) returns (at: seq<nat>)
    ensures Chosen(edges, (e: RankEdge) => e.from in sub && e.to in sub, at)
    ensures EdgesAt(edges, at, Inner(edges, sub))
  {
    var keep := (e: RankEdge) => e.from in sub && e.to in sub;
    if edges == [] {
      at := [];
    } else {
      var init, last := edges[..|edges| - 1], edges[|edges| - 1];
      at := InnerIsChosen(init, sub);
      ChosenSnoc(init, keep, at, last);
      assert edges == init + [last];
      at := at + if keep(last) then [|init|] else [];
    }
  }

  ghost predicate EdgesAt(edges: seq<RankEdge>, at: seq<nat>, some: seq<RankEdge>) {
    |some| == |at| && forall i :: 0 <= i < |at| ==> at[i] < |edges| && some[i] == edges[at[i]]
  }

  // sub is the neighbourhood, or the first nodes of it.
  ghost predicate IsFirstOf(sub: seq<Node>, whole: seq<Node>, max: Option<nat>) {
    sub <= whole && match max
      case None => sub == whole
      case Some(most) => if |whole| <= most then sub == whole else |sub| == most
  }

  // A query ranks the neighbourhood of its anchors, cut to its first nodes, along the edges inside, by the weights of
  // the boosted nodes: through the index as without it.
  lemma AnchoredIsRanking(nodeKeys: seq<Node>, edges: seq<RankEdge>, anchors: seq<Node>, depth: int, d: real,
                          iterations: int, max: Option<nat>, prebuilt: Option<Prebuilt>, boosted: set<Node>)
      returns (sub: seq<Node>, at: seq<nat>, inner: seq<RankEdge>, w: Weights)
    requires forall e :: e in edges ==> e.from in nodeKeys
    requires prebuilt.Some? ==> prebuilt.value == PrebuiltOf(nodeKeys, edges)
    requires anchors != []
    ensures IsFirstOf(sub, Surroundings(Forward(nodeKeys, edges), Backward(nodeKeys, edges), anchors, depth), max)
    ensures Chosen(edges, (e: RankEdge) => e.from in sub && e.to in sub, at) && EdgesAt(edges, at, inner)
    ensures IsBoost(sub, boosted, w)
    ensures IsRanking(Graph(sub, inner), w, d, iterations, 0.000001,
                      AnchoredRanks(nodeKeys, edges, anchors, depth, d, iterations, max, prebuilt, boosted))
  {
    hide Surroundings, IsRanking, RankOf, Boosts, IsBoost, Inner, Chosen, IndexedEdges;
    sub := SubNodes(nodeKeys, edges, anchors, depth, max, None);
    w, inner := Boosts(sub, boosted), Inner(edges, sub);
    NeighborhoodIsSound(nodeKeys, edges, anchors, depth);
    BoostsAreBoost(sub, boosted);
    at := InnerIsChosen(edges, sub);
    PathsAgree(nodeKeys, edges, anchors, depth, d, iterations, max, w);
    BoostsAreInside(sub, boosted);
    RanksAreRun(Graph(sub, inner), w, d, iterations, 0.000001);
  }

  // Without anchors, the whole graph with no weights, in at most a hundred rounds.
  lemma UnanchoredIsRanking(nodeKeys: seq<Node>, edges: seq<RankEdge>, depth: int, d: real, iterations: int,
                            max: Option<nat>, prebuilt: Option<Prebuilt>, boosted: set<Node>)
    ensures IsRanking(Graph(nodeKeys, edges), [], d, 100, 0.000001,
                      AnchoredRanks(nodeKeys, edges, [], depth, d, iterations, max, prebuilt, boosted))
  {
    hide IsRanking;
    RanksAreRun(Graph(nodeKeys, edges), [], d, 100, 0.000001);
  }
}
