// The vector that power iteration approaches exists: it solves a linear system, which elimination solves.
module Stationary {
  import opened Sums
  import opened PageRank
  import opened PageRankTheorems

  // ----- systems x == b + a x -----

  ghost function Row<T>(a: (T, T) -> real, x: T -> real, i: T): T -> real {
    k => Times(a(i, k), x(k))
  }

  ghost function Column<T>(a: (T, T) -> real, k: T): T -> real {
    i => a(i, k)
  }

  ghost predicate Solves<T(!new)>(ns: seq<T>, a: (T, T) -> real, b: T -> real, x: T -> real) {
    forall i :: i in ns ==> x(i) == b(i) + Sum(ns, Row(a, x, i))
  }

  // No negative coefficient, and every column adds up to d at most.
  ghost predicate Shrinking<T(!new)>(ns: seq<T>, a: (T, T) -> real, d: real) {
    && (forall i, k :: i in ns && k in ns ==> a(i, k) >= 0.0)
    && (forall k :: k in ns ==> Sum(ns, Column(a, k)) <= d)
  }

  ghost predicate NonNegativeOn<T(!new)>(ns: seq<T>, x: T -> real) {
    forall i :: i in ns ==> x(i) >= 0.0
  }

  // What is left of the system when the equation of n is solved for n.
  ghost function Reduced<T>(a: (T, T) -> real, n: T, q: real): (T, T) -> real
    requires q > 0.0
  {
    (i, k) => a(i, k) + Times(a(i, n) / q, a(n, k))
  }

  ghost function ReducedSide<T>(a: (T, T) -> real, b: T -> real, n: T, q: real): T -> real
    requires q > 0.0
  {
    i => b(i) + Times(a(i, n) / q, b(n))
  }

  ghost function With<T>(x: T -> real, n: T, v: real): T -> real {
    k => if k == n then v else x(k)
  }

  lemma Bigger(a: real, x: real, y: real, q: real)
    requires a >= 0.0 && q > 0.0 && y >= 0.0 && x >= 0.0
    ensures a / q >= 0.0 && x + Times(a / q, y) >= 0.0
  {
    QuotientNonNeg(a, q);
    MulNonNeg(a / q, y);
  }

  // The column of k loses its entry at n and gains a share of the column of n.
  lemma ColumnBound(d: real, nn: real, nk: real, rest: real, restN: real)
    requires d < 1.0 && nn <= d && 0.0 <= nk && rest + nk <= d && restN + nn <= d && restN >= 0.0
    ensures rest + nk / (1.0 - nn) * restN <= d
  {
    var q := 1.0 - nn;
    var share := nk / q;
    QuotientNonNeg(nk, q);
    assert share * q == nk;
    TimesMono(share, restN, q);
  }

  lemma ReducedShrinks<T(!new)>(ns: seq<T>, a: (T, T) -> real, d: real)
    requires ns != [] && Shrinking(ns, a, d) && d < 1.0
    ensures var rest, n := ns[..|ns| - 1], ns[|ns| - 1];
      0.0 <= a(n, n) <= d && Shrinking(rest, Reduced(a, n, 1.0 - a(n, n)), d)
  {
    var rest, n := ns[..|ns| - 1], ns[|ns| - 1];
    SumNonNeg(rest, Column(a, n));
    assert Sum(ns, Column(a, n)) == Sum(rest, Column(a, n)) + a(n, n);
    var q := 1.0 - a(n, n);
    var a' := Reduced(a, n, q);
    forall i, k | i in rest && k in rest ensures a'(i, k) >= 0.0 {
      Bigger(a(i, n), a(i, k), a(n, k), q);
    }
    forall k | k in rest ensures Sum(rest, Column(a', k)) <= d {
      assert Sum(ns, Column(a, k)) == Sum(rest, Column(a, k)) + a(n, k);
      ReducedColumn(rest, a, n, k, q);
      ColumnBound(d, a(n, n), a(n, k), Sum(rest, Column(a, k)), Sum(rest, Column(a, n)));
    }
  }

  lemma ReducedColumn<T(!new)>(rest: seq<T>, a: (T, T) -> real, n: T, k: T, q: real)
    requires q > 0.0
    ensures Sum(rest, Column(Reduced(a, n, q), k)) == Sum(rest, Column(a, k)) + a(n, k) / q * Sum(rest, Column(a, n))
  {
    var share := a(n, k) / q;
    forall i | i in rest ensures Column(Reduced(a, n, q), k)(i) == 1.0 * Column(a, k)(i) + share * Column(a, n)(i) {
      Exchange(a(i, n), a(n, k), q);
    }
    SumLinear(rest, Column(a, k), Column(a, n), 1.0, share, Column(Reduced(a, n, q), k));
  }

  lemma Exchange(x: real, y: real, q: real)
    requires q > 0.0
    ensures Times(x / q, y) == (y / q) * x
  {}

  // A solution of the reduced system gives one of the whole.
  lemma SubstituteBack<T(!new)>(ns: seq<T>, a: (T, T) -> real, b: T -> real, x: T -> real) returns (y: T -> real)
    requires ns != [] && Distinct(ns)
    requires var rest, n := ns[..|ns| - 1], ns[|ns| - 1];
      a(n, n) < 1.0 && Solves(rest, Reduced(a, n, 1.0 - a(n, n)), ReducedSide(a, b, n, 1.0 - a(n, n)), x)
    ensures Solves(ns, a, b, y)
    ensures var rest, n := ns[..|ns| - 1], ns[|ns| - 1];
      y == With(x, n, (b(n) + Sum(rest, Row(a, x, n))) / (1.0 - a(n, n)))
  {
    var rest, n := ns[..|ns| - 1], ns[|ns| - 1];
    var q := 1.0 - a(n, n);
    var v := (b(n) + Sum(rest, Row(a, x, n))) / q;
    y := With(x, n, v);
    forall i | i in ns ensures y(i) == b(i) + Sum(ns, Row(a, y, i)) {
      RowOfWhole(rest, a, x, n, v, i);
      assert Sum(ns, Row(a, y, i)) == Sum(rest, Row(a, y, i)) + Times(a(i, n), v);
      if i == n {
        assert v * q == b(n) + Sum(rest, Row(a, x, n));
      } else {
        assert i in rest;
        RowOfReduced(rest, a, b, x, n, q, i);
      }
    }
  }

  lemma RowOfWhole<T(!new)>(rest: seq<T>, a: (T, T) -> real, x: T -> real, n: T, v: real, i: T)
    requires n !in rest
    ensures Sum(rest, Row(a, With(x, n, v), i)) == Sum(rest, Row(a, x, i))
  {
    SumCong(rest, Row(a, With(x, n, v), i), Row(a, x, i));
  }

  lemma RowOfReduced<T(!new)>(rest: seq<T>, a: (T, T) -> real, b: T -> real, x: T -> real, n: T, q: real, i: T)
    requires q > 0.0
    ensures ReducedSide(a, b, n, q)(i) + Sum(rest, Row(Reduced(a, n, q), x, i))
      == b(i) + Sum(rest, Row(a, x, i)) + Times(a(i, n), (b(n) + Sum(rest, Row(a, x, n))) / q)
  {
    var share := a(i, n) / q;
    forall k | k in rest ensures Row(Reduced(a, n, q), x, i)(k) == 1.0 * Row(a, x, i)(k) + share * Row(a, x, n)(k) {
      Spread(a(i, k), share, a(n, k), x(k));
    }
    SumLinear(rest, Row(a, x, i), Row(a, x, n), 1.0, share, Row(Reduced(a, n, q), x, i));
    Collect(a(i, n), q, b(n), Sum(rest, Row(a, x, n)));
  }

  lemma Spread(a: real, share: real, c: real, x: real)
    ensures Times(a + Times(share, c), x) == 1.0 * Times(a, x) + share * Times(c, x)
  {}

  lemma Collect(a: real, q: real, b: real, s: real)
    requires q > 0.0
    ensures Times(a / q, b) + (a / q) * s == Times(a, (b + s) / q)
  {
    assert (a / q) * (b + s) == a * ((b + s) / q);
  }

  // Elimination solves every shrinking system, without negative entries when the right-hand side has none.
  lemma {:induction false} Solution<T(!new)>(ns: seq<T>, a: (T, T) -> real, b: T -> real, d: real)
    returns (x: T -> real)
    requires Distinct(ns) && Shrinking(ns, a, d) && d < 1.0
    ensures Solves(ns, a, b, x)
    ensures NonNegativeOn(ns, b) ==> NonNegativeOn(ns, x)
    decreases |ns|
  {
    if ns == [] {
      x := b;
    } else {
      var rest, n := ns[..|ns| - 1], ns[|ns| - 1];
      ReducedShrinks(ns, a, d);
      var q := 1.0 - a(n, n);
      var x' := Solution(rest, Reduced(a, n, q), ReducedSide(a, b, n, q), d);
      x := SubstituteBack(ns, a, b, x');
      if NonNegativeOn(ns, b) {
        forall i | i in rest ensures ReducedSide(a, b, n, q)(i) >= 0.0 {
          Bigger(a(i, n), b(i), b(n), q);
        }
        forall k | k in rest ensures Row(a, x', n)(k) >= 0.0 {
          MulNonNeg(a(n, k), x'(k));
        }
        SumNonNeg(rest, Row(a, x', n));
        QuotientNonNeg(b(n) + Sum(rest, Row(a, x', n)), q);
      }
    }
  }

  // ----- one iteration as a system -----

  ghost function Unit(m: Node): Node -> real {
    n => if n == m then 1.0 else 0.0
  }

  // What a step moves from m to n, for each unit of mass at m.
  ghost function Moved(g: Graph, pers: Ranks, d: real): (Node, Node) -> real {
    (n, m) => Lin(Times(d, Dangling(g, Unit(m))), Get(pers, n, 0.0), d, Inflow(g.edges, Unit(m))(n))
  }

  ghost function Restart(pers: Ranks, d: real): Node -> real {
    n => Times(1.0 - d, Get(pers, n, 0.0))
  }

  lemma UnitFlow(g: Graph, m: Node)
    requires Weighted(g) && m in g.nodes
    ensures Dangling(g, Unit(m)) >= 0.0
    ensures Dangling(g, Unit(m)) + Sum(g.nodes, Inflow(g.edges, Unit(m))) <= 1.0
  {
    FlowConserved(g, Unit(m));
    DanglingAndFlowing(g, Unit(m));
    SumNonNeg(g.nodes, IfDangling(g.edges, Unit(m)));
    SumSingle(g.nodes, m, Unit(m));
  }

  lemma MovedShrinks(g: Graph, pers: Ranks, d: real)
    requires Weighted(g) && 0.0 <= d && SubDistribution(g.nodes, pers)
    ensures Shrinking(g.nodes, Moved(g, pers, d), d)
  {
    var a := Moved(g, pers, d);
    forall n, m | n in g.nodes && m in g.nodes ensures a(n, m) >= 0.0 {
      UnitFlow(g, m);
      InflowNonNeg(g, Unit(m), n);
      MulNonNeg(d, Dangling(g, Unit(m)));
      MulNonNeg(Times(d, Dangling(g, Unit(m))), Get(pers, n, 0.0));
      MulNonNeg(d, Inflow(g.edges, Unit(m))(n));
    }
    forall m | m in g.nodes ensures Sum(g.nodes, Column(a, m)) <= d {
      UnitFlow(g, m);
      var dm, inflow := Dangling(g, Unit(m)), Inflow(g.edges, Unit(m));
      var parts := LinOf(Times(d, dm), Reading(pers), d, inflow);
      SumCong(g.nodes, Column(a, m), parts);
      Combine(g.nodes, Times(d, dm), Reading(pers), d, inflow);
      ContractionBound(d, dm, Sum(g.nodes, inflow), Total(g.nodes, pers), 1.0);
    }
  }

  ghost function DanglingParts(g: Graph, f: Node -> real): Node -> real {
    m => Times(f(m), Dangling(g, Unit(m)))
  }

  ghost function InflowParts(edges: seq<RankEdge>, f: Node -> real, n: Node): Node -> real {
    m => Times(f(m), Inflow(edges, Unit(m))(n))
  }

  lemma DanglingByUnits(g: Graph, f: Node -> real)
    requires Distinct(g.nodes)
    ensures Dangling(g, f) == Sum(g.nodes, DanglingParts(g, f))
  {
    forall m | m in g.nodes ensures IfDangling(g.edges, f)(m) == DanglingParts(g, f)(m) {
      SumSingle(g.nodes, m, IfDangling(g.edges, Unit(m)));
    }
    SumCong(g.nodes, IfDangling(g.edges, f), DanglingParts(g, f));
  }

  lemma AlongUnit(mass: real, w: real, ow: real)
    ensures Along(mass, w, ow) == mass * Along(1.0, w, ow) && Along(0.0, w, ow) == 0.0
  {}

  lemma InflowByUnits(g: Graph, f: Node -> real, n: Node)
    requires Distinct(g.nodes) && forall e :: e in g.edges ==> e.from in g.nodes || f(e.from) == 0.0
    ensures Inflow(g.edges, f)(n) == Sum(g.nodes, InflowParts(g.edges, f, n))
  {
    var arriving := InClass(Share(g.edges, f), Target(), n);
    forall e | e in g.edges ensures e.from in g.nodes || arriving(e) == 0.0 {
      AlongUnit(f(e.from), e.weight, OutWeight(g.edges, e.from));
    }
    SumByClass(g.nodes, g.edges, arriving, Source());
    forall m | m in g.nodes ensures ClassSum(g.edges, arriving, Source())(m) == InflowParts(g.edges, f, n)(m) {
      InflowFromOne(g.edges, f, n, m);
    }
    SumCong(g.nodes, ClassSum(g.edges, arriving, Source()), InflowParts(g.edges, f, n));
  }

  // What reaches n from m is m's mass times what a unit there would send.
  lemma InflowFromOne(edges: seq<RankEdge>, f: Node -> real, n: Node, m: Node)
    ensures ClassSum(edges, InClass(Share(edges, f), Target(), n), Source())(m) == InflowParts(edges, f, n)(m)
  {
    var ofUnit := InClass(Share(edges, Unit(m)), Target(), n);
    var fromOne := InClass(InClass(Share(edges, f), Target(), n), Source(), m);
    hide Share, OutWeight, Along, Unit, Sum;
    forall e | e in edges ensures fromOne(e) == f(m) * ofUnit(e) {
      ShareOfUnit(edges, f, n, m, e);
    }
    SumScale(edges, ofUnit, f(m), fromOne);
  }

  lemma ShareOfUnit(edges: seq<RankEdge>, f: Node -> real, n: Node, m: Node, e: RankEdge)
    ensures InClass(InClass(Share(edges, f), Target(), n), Source(), m)(e)
      == f(m) * InClass(Share(edges, Unit(m)), Target(), n)(e)
  {
    AlongUnit(f(e.from), e.weight, OutWeight(edges, e.from));
    if e.from == m && e.to == n {
      assert InClass(Share(edges, f), Target(), n)(e) == Share(edges, f)(e);
    }
  }

  lemma MovedFrom(d: real, dm: real, p: real, inflow: real, x: real)
    ensures Times(Lin(Times(d, dm), p, d, inflow), x) == Lin(d * p, Times(x, dm), d, Times(x, inflow))
  {}

  lemma BlendIs(d: real, dm: real, p: real, inflow: real)
    ensures Blend(d, dm, p, inflow) == Times(1.0 - d, p) + Lin(d * p, dm, d, inflow)
  {}

  // A step is what restarts and what moves.
  lemma StepIsLinear(g: Graph, pers: Ranks, d: real, x: Ranks, n: Node)
    requires Distinct(g.nodes) && OnNodes(g.nodes, x)
    ensures NodeRank(g, pers, d, x, n) == Restart(pers, d)(n) + Sum(g.nodes, Row(Moved(g, pers, d), Reading(x), n))
  {
    var f := Reading(x);
    hide Dangling, Inflow, Moved, Row, DanglingParts, InflowParts;
    MovedInAll(g, pers, d, f, n);
    DanglingByUnits(g, f);
    InflowByUnits(g, f, n);
    BlendIs(d, Dangling(g, f), Get(pers, n, 0.0), Inflow(g.edges, f)(n));
  }

  lemma MovedInAll(g: Graph, pers: Ranks, d: real, f: Node -> real, n: Node)
    ensures Sum(g.nodes, Row(Moved(g, pers, d), f, n))
      == Lin(d * Get(pers, n, 0.0), Sum(g.nodes, DanglingParts(g, f)), d, Sum(g.nodes, InflowParts(g.edges, f, n)))
  {
    hide Dangling, Inflow, Get;
    var p := Get(pers, n, 0.0);
    var row, parts := Row(Moved(g, pers, d), f, n), LinOf(d * p, DanglingParts(g, f), d, InflowParts(g.edges, f, n));
    forall m | m in g.nodes ensures row(m) == parts(m) {
      MovedFrom(d, Dangling(g, Unit(m)), p, Inflow(g.edges, Unit(m))(n), f(m));
    }
    SumCong(g.nodes, row, parts);
    Combine(g.nodes, d * p, DanglingParts(g, f), d, InflowParts(g.edges, f, n));
  }

  // ----- the stationary vector -----

  ghost predicate IsStationary(g: Graph, pers: Ranks, d: real, p: Ranks) {
    OnNodes(g.nodes, p) && Step(g, pers, d, p) == p
  }

  lemma FixedPoint(g: Graph, pers: Ranks, d: real) returns (p: Ranks)
    requires Weighted(g) && 0.0 <= d < 1.0 && SubDistribution(g.nodes, pers)
    ensures IsStationary(g, pers, d, p) && forall n :: n in p ==> p[n] >= 0.0
  {
    MovedShrinks(g, pers, d);
    forall n | n in g.nodes ensures Restart(pers, d)(n) >= 0.0 { MulNonNeg(1.0 - d, Get(pers, n, 0.0)); }
    var x := Solution(g.nodes, Moved(g, pers, d), Restart(pers, d), d);
    p := map n | n in g.nodes :: x(n);
    forall n | n in g.nodes ensures NodeRank(g, pers, d, p, n) == p[n] {
      StepIsLinear(g, pers, d, p, n);
      SumCong(g.nodes, Row(Moved(g, pers, d), Reading(p), n), Row(Moved(g, pers, d), x, n));
    }
  }

  lemma TotalOfFixed(d: real, t: real, dm: real, fl: real, p: real)
    requires 0.0 <= d < 1.0 && t == Lin(Teleported(d, dm), p, d, fl) && dm >= 0.0 && dm + fl <= t && p <= 1.0
    ensures t <= 1.0
    ensures p == 1.0 && dm + fl == t ==> t == 1.0
  {
    MulNonNeg(d, dm);
    TimesMono(Teleported(d, dm), p, 1.0);
    TimesMono(d, dm + fl, t);
    WithWhole(d, dm, fl);
    Squeezed(d, t);
  }

  lemma WithWhole(d: real, dm: real, fl: real)
    ensures Times(Teleported(d, dm), 1.0) + Times(d, fl) == 1.0 - d + Times(d, dm + fl)
  {}

  lemma Squeezed(d: real, t: real)
    requires d < 1.0
    ensures t <= 1.0 - d + Times(d, t) ==> t <= 1.0
    ensures t == 1.0 - d + Times(d, t) ==> t == 1.0
  {
    if t > 1.0 { MulPos(1.0 - d, t - 1.0); }
    if t < 1.0 { MulPos(1.0 - d, 1.0 - t); }
  }

  // There is exactly one stationary vector. It is a distribution on a proper graph, as the teleport vector is.
  lemma StationaryExists(g: Graph, pers: Ranks, d: real) returns (p: Ranks)
    requires Weighted(g) && 0.0 <= d < 1.0 && SubDistribution(g.nodes, pers)
    ensures forall q :: IsStationary(g, pers, d, q) <==> q == p
    ensures SubDistribution(g.nodes, p)
    ensures Proper(g) && Distribution(g.nodes, pers) ==> Distribution(g.nodes, p)
  {
    p := FixedPoint(g, pers, d);
    var f := Reading(p);
    StepTotal(g, pers, d, p);
    FlowConserved(g, f);
    DanglingAndFlowing(g, f);
    SumNonNeg(g.nodes, IfDangling(g.edges, f));
    TotalOfFixed(d, Total(g.nodes, p), Dangling(g, f), Sum(g.nodes, Inflow(g.edges, f)), Total(g.nodes, pers));
    forall q | IsStationary(g, pers, d, q) ensures q == p {
      StationaryUnique(g, pers, d, q, p);
    }
  }

  // A default run ends within 17/3 of a millionth of the one stationary vector, on every weighted graph.
  lemma DefaultRunIsNearTheOne(g: Graph, w: Weights) returns (p: Ranks)
    requires g.nodes != [] && Weighted(g) && DistinctKeys(w) && NonNegativeWeights(w)
    ensures forall q :: IsStationary(g, Teleport(g.nodes, w), DEFAULT_DAMPING, q) <==> q == p
    ensures 3.0 * Distance(g.nodes, RankOf(g, w, DEFAULT_DAMPING, DEFAULT_MAX_ITERATIONS, DEFAULT_EPSILON), p)
      <= 17.0 * DEFAULT_EPSILON
  {
    TeleportMass(g.nodes, w);
    p := StationaryExists(g, Teleport(g.nodes, w), DEFAULT_DAMPING);
    assert IsStationary(g, Teleport(g.nodes, w), DEFAULT_DAMPING, p);
    DefaultRunIsAccurate(g, w, p);
  }
}
