// The undirected conductances of a graph: one weight for each joined pair of nodes (src/codemap/heat.ts).
module HeatPairs {
  import opened Basics
  import opened PageRank

  // An undirected edge between two node indices, the smaller first.
  datatype Pair = Pair(a: nat, b: nat, w: real)

  // ----- pairs -----

  // The last index of a key.
  function IndexOf(keys: seq<Node>, key: Node): (i: int)
    ensures -1 <= i < |keys|
  {
    if keys == [] then -1 else if keys[|keys| - 1] == key then |keys| - 1 else IndexOf(keys[..|keys| - 1], key)
  }

  // The pair of indices an edge joins, when it joins two different nodes of the graph.
  function Joins(keys: seq<Node>, e: RankEdge): (r: Option<(nat, nat)>)
    ensures r.Some? ==> r.value.0 < r.value.1 < |keys|
  {
    var ai, bi := IndexOf(keys, e.from), IndexOf(keys, e.to);
    if ai < 0 || bi < 0 || ai == bi then None
    else if ai < bi then Some((ai, bi)) else Some((bi, ai))
  }

  // Keep the larger weight of a pair, and 0 at least; a new pair goes to the end.
  function PutMax(pairs: seq<Pair>, a: nat, b: nat, w: real): seq<Pair> {
    if pairs == [] then [Pair(a, b, MaxReal(0.0, w))]
    else if pairs[0].a == a && pairs[0].b == b then [Pair(a, b, MaxReal(pairs[0].w, w))] + pairs[1..]
    else [pairs[0]] + PutMax(pairs[1..], a, b, w)
  }

  function BestPairs(keys: seq<Node>, edges: seq<RankEdge>): seq<Pair> {
    if edges == [] then [] else
      var e := edges[|edges| - 1];
      var rest := BestPairs(keys, edges[..|edges| - 1]);
      var j := Joins(keys, e);
      if j.None? then rest else PutMax(rest, j.value.0, j.value.1, e.weight)
  }

  function InsertByFirst(p: Pair, sorted: seq<Pair>): seq<Pair> {
    if sorted == [] || p.a < sorted[0].a then [p] + sorted else [sorted[0]] + InsertByFirst(p, sorted[1..])
  }

  // Stable, by the first index.
  function SortByFirst(pairs: seq<Pair>): seq<Pair> {
    if pairs == [] then [] else InsertByFirst(pairs[|pairs| - 1], SortByFirst(pairs[..|pairs| - 1]))
  }

  ghost predicate DistinctPairs(pairs: seq<Pair>) {
    forall i, j :: 0 <= i < j < |pairs| ==> pairs[i].a != pairs[j].a || pairs[i].b != pairs[j].b
  }

  ghost predicate PairsBelow(pairs: seq<Pair>, n: nat) {
    forall i :: 0 <= i < |pairs| ==> pairs[i].a < pairs[i].b < n && pairs[i].w >= 0.0
  }

  // w is the largest weight of an edge between a and b in either direction, 0 at least.
  ghost predicate MaxConductance(keys: seq<Node>, edges: seq<RankEdge>, a: nat, b: nat, w: real) {
    && w >= 0.0
    && (exists e :: e in edges && Joins(keys, e) == Some((a, b)))
    && (forall e :: e in edges && Joins(keys, e) == Some((a, b)) ==> e.weight <= w)
    && (w == 0.0 || exists e :: e in edges && Joins(keys, e) == Some((a, b)) && e.weight == w)
  }

  lemma {:induction false} PutMaxFacts(pairs: seq<Pair>, a: nat, b: nat, w: real)
    requires DistinctPairs(pairs)
    ensures DistinctPairs(PutMax(pairs, a, b, w))
    ensures forall p :: p in PutMax(pairs, a, b, w) && (p.a != a || p.b != b) <==> p in pairs && (p.a != a || p.b != b)
    ensures forall p :: p in pairs && p.a == a && p.b == b ==> Pair(a, b, MaxReal(p.w, w)) in PutMax(pairs, a, b, w)
    ensures (forall p :: p in pairs ==> p.a != a || p.b != b) ==> Pair(a, b, MaxReal(0.0, w)) in PutMax(pairs, a, b, w)
  {
    if pairs != [] {
      assert pairs == [pairs[0]] + pairs[1..];
      if !(pairs[0].a == a && pairs[0].b == b) {
        PutMaxFacts(pairs[1..], a, b, w);
        var rest := PutMax(pairs[1..], a, b, w);
        forall j | 0 <= j < |rest| ensures rest[j].a != pairs[0].a || rest[j].b != pairs[0].b {
          if rest[j].a != a || rest[j].b != b {
            assert rest[j] in pairs[1..];
          }
        }
      } else {
        var r := PutMax(pairs, a, b, w);
        assert r[0] == Pair(a, b, MaxReal(pairs[0].w, w)) && r[1..] == pairs[1..];
        forall p | p in pairs && p.a == a && p.b == b ensures p == pairs[0] {
          var j :| 0 <= j < |pairs| && pairs[j] == p;
        }
        forall p | p in pairs[1..] ensures p.a != a || p.b != b {
          var j :| 0 <= j < |pairs[1..]| && pairs[1..][j] == p;
          assert pairs[j + 1] == p;
        }
      }
    }
  }

  ghost predicate HasPair(pairs: seq<Pair>, a: nat, b: nat) {
    exists p :: p in pairs && p.a == a && p.b == b
  }

  // The pairs of an edge list: each once, with its maximal conductance, and every joined one of them.
  ghost predicate PairsOf(keys: seq<Node>, edges: seq<RankEdge>, pairs: seq<Pair>) {
    && DistinctPairs(pairs)
    && (forall p :: p in pairs ==> MaxConductance(keys, edges, p.a, p.b, p.w))
    && (forall e :: e in edges && Joins(keys, e).Some? ==>
         HasPair(pairs, Joins(keys, e).value.0, Joins(keys, e).value.1))
  }

  lemma {:induction false} BestFacts(keys: seq<Node>, edges: seq<RankEdge>)
    ensures PairsOf(keys, edges, BestPairs(keys, edges))
  {
    if edges != [] {
      hide PairsOf;
      var init, e := edges[..|edges| - 1], edges[|edges| - 1];
      BestFacts(keys, init);
      assert edges == init + [e];
      if Joins(keys, e).Some? {
        JoiningEdge(keys, init, e, BestPairs(keys, init));
      } else {
        OtherEdge(keys, init, e, BestPairs(keys, init));
      }
    } else {
      assert BestPairs(keys, edges) == [];
    }
  }

  lemma OtherEdge(keys: seq<Node>, init: seq<RankEdge>, e: RankEdge, rest: seq<Pair>)
    requires PairsOf(keys, init, rest) && Joins(keys, e).None?
    ensures PairsOf(keys, init + [e], rest)
  {
    hide Joins;
    forall p | p in rest ensures MaxConductance(keys, init + [e], p.a, p.b, p.w) {
      MaxIgnores(keys, init, e, p);
    }
  }

  lemma JoiningEdge(keys: seq<Node>, init: seq<RankEdge>, e: RankEdge, rest: seq<Pair>)
    requires PairsOf(keys, init, rest) && Joins(keys, e).Some?
    ensures PairsOf(keys, init + [e], PutMax(rest, Joins(keys, e).value.0, Joins(keys, e).value.1, e.weight))
  {
    hide Joins, MaxConductance, HasPair, PutMax;
    var (a, b) := Joins(keys, e).value;
    var pairs := PutMax(rest, a, b, e.weight);
    PutMaxFacts(rest, a, b, e.weight);
    forall p | p in pairs ensures MaxConductance(keys, init + [e], p.a, p.b, p.w) {
      BestStep(keys, init, e, rest, p);
    }
    forall f | f in init + [e] && Joins(keys, f).Some?
      ensures HasPair(pairs, Joins(keys, f).value.0, Joins(keys, f).value.1)
    {
      BestCovers(keys, init, e, rest, f);
    }
  }

  lemma MaxIgnores(keys: seq<Node>, init: seq<RankEdge>, e: RankEdge, p: Pair)
    requires MaxConductance(keys, init, p.a, p.b, p.w) && Joins(keys, e) != Some((p.a, p.b))
    ensures MaxConductance(keys, init + [e], p.a, p.b, p.w)
  {
    var x :| x in init && Joins(keys, x) == Some((p.a, p.b));
    assert x in init + [e];
    if p.w != 0.0 {
      var y :| y in init && Joins(keys, y) == Some((p.a, p.b)) && y.weight == p.w;
      assert y in init + [e];
    }
  }

  // The pair joined by e, before and after e.
  lemma MaxGrows(keys: seq<Node>, init: seq<RankEdge>, e: RankEdge, a: nat, b: nat, old_: Option<real>)
    requires Joins(keys, e) == Some((a, b))
    requires if old_.Some? then MaxConductance(keys, init, a, b, old_.value)
             else forall x :: x in init ==> Joins(keys, x) != Some((a, b))
    ensures MaxConductance(keys, init + [e], a, b, MaxReal(if old_.Some? then old_.value else 0.0, e.weight))
  {
    var w := MaxReal(if old_.Some? then old_.value else 0.0, e.weight);
    assert e in init + [e];
    if w != 0.0 && w != e.weight {
      var y :| y in init && Joins(keys, y) == Some((a, b)) && y.weight == w;
      assert y in init + [e];
    }
  }

  lemma BestStep(keys: seq<Node>, init: seq<RankEdge>, e: RankEdge, rest: seq<Pair>, p: Pair)
    requires PairsOf(keys, init, rest) && Joins(keys, e).Some?
    requires p in PutMax(rest, Joins(keys, e).value.0, Joins(keys, e).value.1, e.weight)
    ensures MaxConductance(keys, init + [e], p.a, p.b, p.w)
  {
    hide PutMax, MaxConductance;
    var (a, b) := Joins(keys, e).value;
    PutMaxFacts(rest, a, b, e.weight);
    if p.a != a || p.b != b {
      MaxIgnores(keys, init, e, p);
    } else if q :| q in rest && q.a == a && q.b == b {
      MaxGrows(keys, init, e, a, b, Some(q.w));
      SamePair(PutMax(rest, a, b, e.weight), p, Pair(a, b, MaxReal(q.w, e.weight)));
    } else {
      NothingJoined(keys, init, rest, a, b);
      MaxGrows(keys, init, e, a, b, None);
      SamePair(PutMax(rest, a, b, e.weight), p, Pair(a, b, MaxReal(0.0, e.weight)));
    }
  }

  lemma NothingJoined(keys: seq<Node>, edges: seq<RankEdge>, pairs: seq<Pair>, a: nat, b: nat)
    requires PairsOf(keys, edges, pairs) && forall p :: p in pairs ==> p.a != a || p.b != b
    ensures forall x :: x in edges ==> Joins(keys, x) != Some((a, b))
  {
    hide Joins, MaxConductance;
    assert !HasPair(pairs, a, b);
  }

  lemma SamePair(pairs: seq<Pair>, p: Pair, q: Pair)
    requires DistinctPairs(pairs) && p in pairs && q in pairs && p.a == q.a && p.b == q.b
    ensures p == q
  {
    var i :| 0 <= i < |pairs| && pairs[i] == p;
    var j :| 0 <= j < |pairs| && pairs[j] == q;
    assert i == j;
  }

  lemma BestCovers(keys: seq<Node>, init: seq<RankEdge>, e: RankEdge, rest: seq<Pair>, f: RankEdge)
    requires PairsOf(keys, init, rest) && Joins(keys, e).Some? && Joins(keys, f).Some? && (f == e || f in init)
    ensures HasPair(PutMax(rest, Joins(keys, e).value.0, Joins(keys, e).value.1, e.weight),
                    Joins(keys, f).value.0, Joins(keys, f).value.1)
  {
    hide PutMax, MaxConductance;
    var (a, b) := Joins(keys, e).value;
    var pairs := PutMax(rest, a, b, e.weight);
    PutMaxFacts(rest, a, b, e.weight);
    if Joins(keys, f) == Some((a, b)) {
      if q :| q in rest && q.a == a && q.b == b {
        assert Pair(a, b, MaxReal(q.w, e.weight)) in pairs;
      } else {
        assert Pair(a, b, MaxReal(0.0, e.weight)) in pairs;
      }
    } else {
      var (c, d) := Joins(keys, f).value;
      assert HasPair(rest, c, d);
      var q :| q in rest && q.a == c && q.b == d;
      assert q in pairs;
    }
  }

  lemma {:induction false} InsertFacts(p: Pair, sorted: seq<Pair>)
    ensures forall q :: q in InsertByFirst(p, sorted) <==> q == p || q in sorted
    ensures DistinctPairs(sorted) && (forall q :: q in sorted ==> q.a != p.a || q.b != p.b) ==>
      DistinctPairs(InsertByFirst(p, sorted))
  {
    if !(sorted == [] || p.a < sorted[0].a) {
      InsertFacts(p, sorted[1..]);
      var r := InsertByFirst(p, sorted[1..]);
      assert forall q :: q in sorted <==> q == sorted[0] || q in sorted[1..];
      if DistinctPairs(sorted) && forall q :: q in sorted ==> q.a != p.a || q.b != p.b {
        forall j | 0 <= j < |r| ensures r[j].a != sorted[0].a || r[j].b != sorted[0].b {
          assert r[j] in r;
          if r[j] != p {
            var k :| 0 <= k < |sorted[1..]| && sorted[1..][k] == r[j];
            assert sorted[k + 1] == r[j];
          }
        }
      }
    }
  }

  lemma {:induction false} SortFacts(pairs: seq<Pair>)
    requires DistinctPairs(pairs)
    ensures DistinctPairs(SortByFirst(pairs))
    ensures forall q :: q in SortByFirst(pairs) <==> q in pairs
  {
    if pairs != [] {
      var init, last := pairs[..|pairs| - 1], pairs[|pairs| - 1];
      SortFacts(init);
      InsertFacts(last, SortByFirst(init));
      assert forall q :: q in pairs <==> q in init || q == last;
      forall q | q in init ensures q.a != last.a || q.b != last.b {
        var i :| 0 <= i < |init| && init[i] == q;
        assert pairs[i] == q;
      }
    }
  }

  ghost function WithFirst(pairs: seq<Pair>, a: nat): seq<Pair> {
    if pairs == [] then []
    else (if pairs[0].a == a then [pairs[0]] else []) + WithFirst(pairs[1..], a)
  }

  ghost predicate Ascending(pairs: seq<Pair>) {
    forall i, j :: 0 <= i < j < |pairs| ==> pairs[i].a <= pairs[j].a
  }

  lemma {:induction false} WithFirstSnoc(pairs: seq<Pair>, p: Pair, a: nat)
    ensures WithFirst(pairs + [p], a) == WithFirst(pairs, a) + if p.a == a then [p] else []
  {
    if pairs == [] {
      assert [p][1..] == [] && [] + [p] == [p];
    } else {
      assert (pairs + [p])[1..] == pairs[1..] + [p];
      WithFirstSnoc(pairs[1..], p, a);
    }
  }

  lemma {:induction false} NoneWithFirst(pairs: seq<Pair>, a: nat)
    requires forall i :: 0 <= i < |pairs| ==> a < pairs[i].a
    ensures WithFirst(pairs, a) == []
  {
    if pairs != [] {
      NoneWithFirst(pairs[1..], a);
    }
  }

  lemma {:induction false} InsertIsStable(p: Pair, sorted: seq<Pair>, a: nat)
    requires Ascending(sorted)
    ensures WithFirst(InsertByFirst(p, sorted), a) == WithFirst(sorted, a) + if p.a == a then [p] else []
  {
    if sorted == [] || p.a < sorted[0].a {
      assert ([p] + sorted)[1..] == sorted;
      if p.a == a {
        NoneWithFirst(sorted, a);
      }
    } else {
      InsertIsStable(p, sorted[1..], a);
      assert ([sorted[0]] + InsertByFirst(p, sorted[1..]))[1..] == InsertByFirst(p, sorted[1..]);
    }
  }

  lemma {:induction false} InsertAscends(p: Pair, sorted: seq<Pair>)
    requires Ascending(sorted)
    ensures Ascending(InsertByFirst(p, sorted))
  {
    if !(sorted == [] || p.a < sorted[0].a) {
      InsertAscends(p, sorted[1..]);
      var rest := InsertByFirst(p, sorted[1..]);
      InsertFacts(p, sorted[1..]);
      forall j | 0 <= j < |rest| ensures sorted[0].a <= rest[j].a {
        assert rest[j] in rest;
      }
    }
  }

  // Sorting puts the first indices in ascending order and keeps the order of the pairs that share one.
  lemma {:induction false} SortIsStable(pairs: seq<Pair>, a: nat)
    ensures Ascending(SortByFirst(pairs)) && WithFirst(SortByFirst(pairs), a) == WithFirst(pairs, a)
  {
    if pairs != [] {
      var init, last := pairs[..|pairs| - 1], pairs[|pairs| - 1];
      SortIsStable(init, a);
      InsertAscends(last, SortByFirst(init));
      InsertIsStable(last, SortByFirst(init), a);
      WithFirstSnoc(init, last, a);
      assert pairs == init + [last];
    }
  }

  function GraphPairs(keys: seq<Node>, edges: seq<RankEdge>): seq<Pair> {
    SortByFirst(BestPairs(keys, edges))
  }

  // The pairs of the graph are its joined pairs, each once, with their maximal conductance.
  lemma GraphPairsAreExact(keys: seq<Node>, edges: seq<RankEdge>)
    ensures var pairs := GraphPairs(keys, edges);
      && DistinctPairs(pairs) && PairsBelow(pairs, |keys|)
      && forall a: nat, b: nat, w: real :: Pair(a, b, w) in pairs <==> MaxConductance(keys, edges, a, b, w)
  {
    var best, pairs := BestPairs(keys, edges), GraphPairs(keys, edges);
    BestFacts(keys, edges);
    SortFacts(best);
    forall a: nat, b: nat, w: real | MaxConductance(keys, edges, a, b, w) ensures Pair(a, b, w) in pairs {
      var e :| e in edges && Joins(keys, e) == Some((a, b));
      assert HasPair(best, a, b);
      var p :| p in best && p.a == a && p.b == b;
      MaxIsUnique(keys, edges, a, b, w, p.w);
      assert p == Pair(a, b, w);
    }
    forall i | 0 <= i < |pairs| ensures pairs[i].a < pairs[i].b < |keys| && pairs[i].w >= 0.0 {
      assert pairs[i] in best;
      var e :| e in edges && Joins(keys, e) == Some((pairs[i].a, pairs[i].b));
    }
    forall a: nat, b: nat, w: real | Pair(a, b, w) in pairs ensures MaxConductance(keys, edges, a, b, w) {
      assert Pair(a, b, w) in best;
    }
  }

  lemma MaxIsUnique(keys: seq<Node>, edges: seq<RankEdge>, a: nat, b: nat, w: real, v: real)
    requires MaxConductance(keys, edges, a, b, w) && MaxConductance(keys, edges, a, b, v)
    ensures w == v
  {}

  // ----- what is joined, without an index -----

  // The node a key stands for: the last one that has it.
  ghost predicate StandsFor(keys: seq<Node>, i: int, key: Node) {
    0 <= i < |keys| && keys[i] == key && forall j :: i < j < |keys| ==> keys[j] != key
  }

  ghost predicate Between(keys: seq<Node>, e: RankEdge, i: int, j: int) {
    || (StandsFor(keys, i, e.from) && StandsFor(keys, j, e.to))
    || (StandsFor(keys, j, e.from) && StandsFor(keys, i, e.to))
  }

  // Some edge lies between the two nodes, and w is the largest weight of these, 0 at least.
  ghost predicate Conductance(keys: seq<Node>, edges: seq<RankEdge>, i: int, j: int, w: real) {
    && i != j && w >= 0.0
    && (exists e :: e in edges && Between(keys, e, i, j))
    && (forall e :: e in edges && Between(keys, e, i, j) ==> e.weight <= w)
    && (w == 0.0 || exists e :: e in edges && Between(keys, e, i, j) && e.weight == w)
  }

  lemma {:induction false} IndexStands(keys: seq<Node>, key: Node, i: int)
    ensures StandsFor(keys, i, key) <==> 0 <= i == IndexOf(keys, key)
  {
    if keys != [] && keys[|keys| - 1] != key {
      var init := keys[..|keys| - 1];
      IndexStands(init, key, i);
      assert StandsFor(keys, i, key) <==> StandsFor(init, i, key);
    }
  }

  lemma JoinsBetween(keys: seq<Node>, e: RankEdge, a: nat, b: nat)
    ensures Joins(keys, e) == Some((a, b)) <==> a < b && Between(keys, e, a, b)
  {
    hide StandsFor, IndexOf;
    IndexStands(keys, e.from, a);
    IndexStands(keys, e.from, b);
    IndexStands(keys, e.to, a);
    IndexStands(keys, e.to, b);
  }

  // The pairs of the graph are the conductances between its nodes, each once, with the smaller index first.
  lemma PairsAreConductances(keys: seq<Node>, edges: seq<RankEdge>)
    ensures forall a: nat, b: nat, w: real ::
      Pair(a, b, w) in GraphPairs(keys, edges) <==> a < b && Conductance(keys, edges, a, b, w)
  {
    GraphPairsAreExact(keys, edges);
    hide GraphPairs, Joins, Between;
    forall a: nat, b: nat, w: real
      ensures Pair(a, b, w) in GraphPairs(keys, edges) <==> a < b && Conductance(keys, edges, a, b, w)
    {
      forall e ensures Joins(keys, e) == Some((a, b)) <==> a < b && Between(keys, e, a, b) {
        JoinsBetween(keys, e, a, b);
      }
      assert MaxConductance(keys, edges, a, b, w) <==> a < b && Conductance(keys, edges, a, b, w);
    }
  }

  lemma ConductanceTurns(keys: seq<Node>, edges: seq<RankEdge>, i: int, j: int, w: real)
    ensures Conductance(keys, edges, i, j, w) <==> Conductance(keys, edges, j, i, w)
  {
    assert forall e :: Between(keys, e, i, j) <==> Between(keys, e, j, i);
    hide Between;
  }

  // Direction, order and repetition of edges do not matter: two edge lists with the same undirected edges
  // give the same conductances.
  ghost predicate Same(e: RankEdge, f: RankEdge) {
    e.weight == f.weight && ((e.from == f.from && e.to == f.to) || (e.from == f.to && e.to == f.from))
  }

  ghost predicate Covered(e: RankEdge, others: seq<RankEdge>) {
    exists f :: f in others && Same(e, f)
  }

  ghost predicate AllCovered(edges: seq<RankEdge>, others: seq<RankEdge>) {
    forall e :: e in edges ==> Covered(e, others)
  }

  ghost predicate SameUndirected(edges: seq<RankEdge>, others: seq<RankEdge>) {
    AllCovered(edges, others) && AllCovered(others, edges)
  }

  lemma TwinOf(keys: seq<Node>, edges: seq<RankEdge>, others: seq<RankEdge>, e: RankEdge) returns (f: RankEdge)
    requires AllCovered(edges, others) && e in edges
    ensures f in others && Joins(keys, f) == Joins(keys, e) && f.weight == e.weight
  {
    assert Covered(e, others);
    f :| f in others && Same(e, f);
  }

  lemma UndirectedConductance(keys: seq<Node>, edges: seq<RankEdge>, others: seq<RankEdge>, a: nat, b: nat, w: real)
    requires SameUndirected(edges, others) && MaxConductance(keys, edges, a, b, w)
    ensures MaxConductance(keys, others, a, b, w)
  {
    hide Joins, AllCovered;
    var e :| e in edges && Joins(keys, e) == Some((a, b));
    var _ := TwinOf(keys, edges, others, e);
    forall y | y in others && Joins(keys, y) == Some((a, b)) ensures y.weight <= w {
      var _ := TwinOf(keys, others, edges, y);
    }
    if w != 0.0 {
      var x :| x in edges && Joins(keys, x) == Some((a, b)) && x.weight == w;
      var _ := TwinOf(keys, edges, others, x);
    }
  }

  lemma ConductancesAreUndirected(keys: seq<Node>, edges: seq<RankEdge>, others: seq<RankEdge>)
    requires SameUndirected(edges, others)
    ensures forall p :: p in GraphPairs(keys, edges) <==> p in GraphPairs(keys, others)
  {
    hide AllCovered, MaxConductance, GraphPairs;
    GraphPairsAreExact(keys, edges);
    GraphPairsAreExact(keys, others);
    forall p: Pair ensures p in GraphPairs(keys, edges) <==> p in GraphPairs(keys, others) {
      assert p == Pair(p.a, p.b, p.w);
      if MaxConductance(keys, edges, p.a, p.b, p.w) {
        UndirectedConductance(keys, edges, others, p.a, p.b, p.w);
      } else if MaxConductance(keys, others, p.a, p.b, p.w) {
        UndirectedConductance(keys, others, edges, p.a, p.b, p.w);
      }
    }
  }

  // ----- the loops -----

  // keyToIdx: a later node with the same key replaces an earlier one.
  method IndexKeys(keys: seq<Node>) returns (index: map<Node, nat>)
    ensures forall key :: key in index <==> IndexOf(keys, key) >= 0
    ensures forall key :: key in index ==> index[key] == IndexOf(keys, key)
  {
    index := map[];
    for i := 0 to |keys|
      invariant forall key :: key in index <==> IndexOf(keys[..i], key) >= 0
      invariant forall key :: key in index ==> index[key] == IndexOf(keys[..i], key)
    {
      assert keys[..i + 1][..i] == keys[..i];
      index := index[keys[i] := i];
    }
    assert keys[..|keys|] == keys;
  }

  lemma PutMaxSkips(pairs: seq<Pair>, i: nat, a: nat, b: nat, w: real)
    requires i < |pairs| && !(pairs[i].a == a && pairs[i].b == b)
    ensures pairs[..i] + PutMax(pairs[i..], a, b, w) == pairs[..i + 1] + PutMax(pairs[i + 1..], a, b, w)
  {}

  // Update an insertion-ordered map of pairs in place.
  method PutPair(pairs: seq<Pair>, a: nat, b: nat, w: real) returns (r: seq<Pair>)
    ensures r == PutMax(pairs, a, b, w)
  {
    var i := 0;
    while i < |pairs| && !(pairs[i].a == a && pairs[i].b == b)
      invariant 0 <= i <= |pairs|
      invariant PutMax(pairs, a, b, w) == pairs[..i] + PutMax(pairs[i..], a, b, w)
    {
      hide PutMax;
      PutMaxSkips(pairs, i, a, b, w);
      i := i + 1;
    }
    r := if i == |pairs| then pairs + [Pair(a, b, MaxReal(0.0, w))] else pairs[i := Pair(a, b, MaxReal(pairs[i].w, w))];
  }

  method CollectPairs(keys: seq<Node>, edges: seq<RankEdge>) returns (pairs: seq<Pair>)
    ensures pairs == BestPairs(keys, edges)
  {
    var index := IndexKeys(keys);
    pairs := [];
    for k := 0 to |edges|
      invariant pairs == BestPairs(keys, edges[..k])
    {
      var e := edges[k];
      assert edges[..k + 1][..k] == edges[..k];
      if e.from !in index || e.to !in index || index[e.from] == index[e.to] {
        continue;
      }
      var ai, bi := index[e.from], index[e.to];
      pairs := PutPair(pairs, if ai < bi then ai else bi, if ai < bi then bi else ai, e.weight);
    }
    assert edges[..|edges|] == edges;
  }
}
