// What power iteration is for: conservation of mass, contraction, convergence.
module PageRankTheorems {
  import opened Basics
  import opened Sums
  import opened PageRank

  // Distinct nodes and no negative weight; edges may leave the node set.
  ghost predicate Weighted(g: Graph) {
    && Distinct(g.nodes)
    && (forall e :: e in g.edges ==> e.weight >= 0.0)
  }

  ghost predicate OnNodes(ns: seq<Node>, m: Ranks) {
    m.Keys == (set n | n in ns)
  }

  // A vector of non-negative entries on the nodes whose total is at most one.
  ghost predicate SubDistribution(ns: seq<Node>, m: Ranks) {
    && OnNodes(ns, m)
    && (forall n :: n in m ==> m[n] >= 0.0)
    && Total(ns, m) <= 1.0
  }

  ghost predicate NonNegative(f: Node -> real) {
    forall n :: f(n) >= 0.0
  }

  // ----- flow along the edges -----

  lemma OutWeightNonNeg(g: Graph, n: Node)
    requires Weighted(g)
    ensures OutWeight(g.edges, n) >= 0.0
  {
    SumNonNeg(g.edges, InClass(Weight(), Source(), n));
  }

  // Products and linear combinations, named so that proofs treat them as units.
  ghost function Lin(a: real, u: real, b: real, v: real): real { a * u + b * v }

  lemma MulNonNeg(a: real, b: real)
    requires a >= 0.0 && b >= 0.0
    ensures a * b >= 0.0
  {}

  lemma TimesMono(k: real, a: real, b: real)
    requires k >= 0.0 && a <= b
    ensures Times(k, a) <= Times(k, b)
  {}

  lemma TimesAbs(k: real, a: real, b: real)
    requires k >= 0.0 && Abs(a) <= b
    ensures Abs(Times(k, a)) <= Times(k, b)
  {
    if a >= 0.0 { MulNonNeg(k, a); } else { MulNonNeg(k, -a); }
    TimesMono(k, Abs(a), b);
  }

  lemma LinAbs(a: real, u: real, b: real, v: real, bu: real, bv: real)
    requires a >= 0.0 && b >= 0.0 && Abs(u) <= bu && Abs(v) <= bv
    ensures Abs(Lin(a, u, b, v)) <= Lin(a, bu, b, bv)
  {
    TimesAbs(a, u, bu);
    TimesAbs(b, v, bv);
  }

  lemma DivMul(a: real, w: real, ow: real)
    requires ow > 0.0
    ensures a * w / ow == (a / ow) * w
    ensures a / ow * ow == a
  {}

  // Everything a node has leaves along its edges, unless it has no out-weight.
  lemma SharesOfOneSource(g: Graph, f: Node -> real, u: Node)
    requires Weighted(g)
    ensures ClassSum(g.edges, Share(g.edges, f), Source())(u) == IfFlowing(g.edges, f)(u)
  {
    var ow := OutWeight(g.edges, u);
    var byWeight, byShare := InClass(Weight(), Source(), u), InClass(Share(g.edges, f), Source(), u);
    OutWeightNonNeg(g, u);
    if ow > 0.0 {
      var a := f(u) / ow;
      forall e | e in g.edges
        ensures byShare(e) == a * byWeight(e)
      {
        DivMul(f(u), e.weight, ow);
      }
      SumScale(g.edges, byWeight, a, byShare);
      DivMul(f(u), ow, ow);
    } else {
      SumZero(g.edges, byShare);
    }
  }

  // What arrives is at most what leaves; nothing is lost when every edge stays inside.
  lemma FlowConserved(g: Graph, f: Node -> real)
    requires Weighted(g) && NonNegative(f)
    requires forall e :: e in g.edges ==> e.from in g.nodes || f(e.from) == 0.0
    ensures Sum(g.nodes, Inflow(g.edges, f)) <= Sum(g.nodes, IfFlowing(g.edges, f))
    ensures Proper(g) ==> Sum(g.nodes, Inflow(g.edges, f)) == Sum(g.nodes, IfFlowing(g.edges, f))
  {
    var share := Share(g.edges, f);
    SumByClass(g.nodes, g.edges, share, Source());
    forall u | u in g.nodes ensures ClassSum(g.edges, share, Source())(u) == IfFlowing(g.edges, f)(u) {
      SharesOfOneSource(g, f, u);
    }
    SumCong(g.nodes, ClassSum(g.edges, share, Source()), IfFlowing(g.edges, f));
    var arriving: RankEdge -> real := (e: RankEdge) => if e.to in g.nodes then share(e) else 0.0;
    SumByClass(g.nodes, g.edges, arriving, Target());
    forall v | v in g.nodes ensures ClassSum(g.edges, arriving, Target())(v) == Inflow(g.edges, f)(v) {
      SumCong(g.edges, InClass(arriving, Target(), v), InClass(share, Target(), v));
    }
    SumCong(g.nodes, ClassSum(g.edges, arriving, Target()), Inflow(g.edges, f));
    forall e | e in g.edges ensures share(e) >= 0.0 { ShareNonNeg(g, f, e); }
    SumMono(g.edges, arriving, share);
    if Proper(g) {
      SumCong(g.edges, arriving, share);
    }
  }

  lemma DanglingAndFlowing(g: Graph, f: Node -> real)
    requires Weighted(g)
    ensures Dangling(g, f) + Sum(g.nodes, IfFlowing(g.edges, f)) == Sum(g.nodes, f)
  {
    forall n | n in g.nodes
      ensures f(n) == IfDangling(g.edges, f)(n) + IfFlowing(g.edges, f)(n)
    {
      OutWeightNonNeg(g, n);
    }
    SumAdd(g.nodes, IfDangling(g.edges, f), IfFlowing(g.edges, f), f);
  }

  // ----- conservation of mass -----

  ghost function Scaled(c: real, f: Node -> real): Node -> real {
    n => c * f(n)
  }

  ghost function Plus(f: Node -> real, g: Node -> real): Node -> real {
    n => f(n) + g(n)
  }

  ghost function LinOf(a: real, f: Node -> real, b: real, h: Node -> real): Node -> real {
    n => Lin(a, f(n), b, h(n))
  }

  // a*f + b*h, summed.
  lemma Combine(ns: seq<Node>, a: real, f: Node -> real, b: real, h: Node -> real)
    ensures Sum(ns, LinOf(a, f, b, h)) == Lin(a, Sum(ns, f), b, Sum(ns, h))
  {
    SumScale(ns, f, a, Scaled(a, f));
    SumScale(ns, h, b, Scaled(b, h));
    SumAdd(ns, Scaled(a, f), Scaled(b, h), LinOf(a, f, b, h));
  }

  // The factor of the teleport vector in a step.
  ghost function Teleported(d: real, dm: real): real { 1.0 - d + d * dm }

  lemma Regroup(d: real, dm: real, p: real, inflow: real)
    ensures Blend(d, dm, p, inflow) == Lin(Teleported(d, dm), p, d, inflow)
  {}

  lemma StepTotal(g: Graph, pers: Ranks, d: real, x: Ranks)
    ensures Total(g.nodes, Step(g, pers, d, x))
         == Lin(Teleported(d, Dangling(g, Reading(x))), Total(g.nodes, pers), d,
                Sum(g.nodes, Inflow(g.edges, Reading(x))))
  {
    var a := Teleported(d, Dangling(g, Reading(x)));
    var inflow := Inflow(g.edges, Reading(x));
    var parts := LinOf(a, Reading(pers), d, inflow);
    forall n | n in g.nodes ensures Reading(Step(g, pers, d, x))(n) == parts(n) {
      Regroup(d, Dangling(g, Reading(x)), Get(pers, n, 0.0), inflow(n));
    }
    Combine(g.nodes, a, Reading(pers), d, inflow);
    SumCong(g.nodes, Reading(Step(g, pers, d, x)), parts);
  }

  lemma InflowNonNeg(g: Graph, f: Node -> real, n: Node)
    requires Weighted(g) && NonNegative(f)
    ensures Inflow(g.edges, f)(n) >= 0.0
  {
    forall e | e in g.edges ensures InClass(Share(g.edges, f), Target(), n)(e) >= 0.0 {
      ShareNonNeg(g, f, e);
    }
    SumNonNeg(g.edges, InClass(Share(g.edges, f), Target(), n));
  }

  lemma AlongNonNeg(mass: real, w: real, ow: real)
    requires mass >= 0.0 && w >= 0.0
    ensures Along(mass, w, ow) >= 0.0
  {
    if ow > 0.0 { MulNonNeg(mass, w); }
  }

  lemma ShareNonNeg(g: Graph, f: Node -> real, e: RankEdge)
    requires Weighted(g) && NonNegative(f) && e in g.edges
    ensures Share(g.edges, f)(e) >= 0.0
  {
    AlongNonNeg(f(e.from), e.weight, OutWeight(g.edges, e.from));
  }

  lemma StepNonNegative(g: Graph, pers: Ranks, d: real, x: Ranks)
    requires Weighted(g) && 0.0 <= d <= 1.0
    requires NonNegative(Reading(pers)) && NonNegative(Reading(x))
    ensures forall n :: n in g.nodes ==> Step(g, pers, d, x)[n] >= 0.0
  {
    var f := Reading(x);
    SumNonNeg(g.nodes, IfDangling(g.edges, f));
    forall n | n in g.nodes ensures NodeRank(g, pers, d, x, n) >= 0.0 {
      InflowNonNeg(g, f, n);
      assert Reading(pers)(n) >= 0.0;
      ThreeTerms(d, Dangling(g, f), Get(pers, n, 0.0), Inflow(g.edges, f)(n));
    }
  }

  lemma ThreeTerms(d: real, dm: real, p: real, inflow: real)
    requires 0.0 <= d <= 1.0 && dm >= 0.0 && p >= 0.0 && inflow >= 0.0
    ensures Blend(d, dm, p, inflow) >= 0.0
  {
    MulNonNeg(1.0 - d, p);
    MulNonNeg(d, dm);
    MulNonNeg(d * dm, p);
    MulNonNeg(d, inflow);
  }

  // What a step makes of the mass of x: the dangling part and the part that flows.
  lemma StepMass(g: Graph, pers: Ranks, d: real, x: Ranks)
    requires Weighted(g) && 0.0 <= d <= 1.0
    requires SubDistribution(g.nodes, pers) && SubDistribution(g.nodes, x)
    ensures Total(g.nodes, Step(g, pers, d, x)) <= 1.0
    ensures Proper(g) && Total(g.nodes, pers) == 1.0 && Total(g.nodes, x) == 1.0
        ==> Total(g.nodes, Step(g, pers, d, x)) == 1.0
  {
    var f := Reading(x);
    StepTotal(g, pers, d, x);
    FlowConserved(g, f);
    DanglingAndFlowing(g, f);
    SumNonNeg(g.nodes, Reading(pers));
    SumNonNeg(g.nodes, IfDangling(g.edges, f));
    forall n | n in g.nodes ensures Inflow(g.edges, f)(n) >= 0.0 { InflowNonNeg(g, f, n); }
    SumNonNeg(g.nodes, Inflow(g.edges, f));
    MassBound(d, Dangling(g, f), Sum(g.nodes, Inflow(g.edges, f)), Total(g.nodes, pers));
  }

  // One iteration keeps a sub-distribution one, and a distribution one on a proper graph.
  lemma StepKeepsMass(g: Graph, pers: Ranks, d: real, x: Ranks)
    requires Weighted(g) && 0.0 <= d <= 1.0
    requires SubDistribution(g.nodes, pers) && SubDistribution(g.nodes, x)
    ensures SubDistribution(g.nodes, Step(g, pers, d, x))
    ensures Proper(g) && Distribution(g.nodes, pers) && Distribution(g.nodes, x) ==>
      Distribution(g.nodes, Step(g, pers, d, x))
  {
    StepNonNegative(g, pers, d, x);
    StepMass(g, pers, d, x);
  }

  lemma MassBound(d: real, dm: real, fl: real, p: real)
    requires 0.0 <= d <= 1.0 && dm >= 0.0 && fl >= 0.0 && dm + fl <= 1.0 && 0.0 <= p <= 1.0
    ensures Lin(Teleported(d, dm), p, d, fl) <= 1.0
    ensures dm + fl == 1.0 && p == 1.0 ==> Lin(Teleported(d, dm), p, d, fl) == 1.0
  {
    var a := Teleported(d, dm);
    MulNonNeg(d, dm);
    TimesMono(a, p, 1.0);
    TimesMono(d, dm + fl, 1.0);
  }

  // ----- contraction -----

  lemma ShareGap(g: Graph, x: Ranks, y: Ranks, e: RankEdge)
    requires Weighted(g) && e in g.edges
    ensures Abs(Share(g.edges, Reading(y))(e) - Share(g.edges, Reading(x))(e)) <= Share(g.edges, Gap(x, y))(e)
  {
    AlongGap(Get(y, e.from, 0.0), Get(x, e.from, 0.0), e.weight, OutWeight(g.edges, e.from));
  }

  lemma InflowGap(g: Graph, x: Ranks, y: Ranks, n: Node)
    requires Weighted(g)
    ensures Abs(Inflow(g.edges, Reading(y))(n) - Inflow(g.edges, Reading(x))(n)) <= Inflow(g.edges, Gap(x, y))(n)
  {
    var cx, cy := InClass(Share(g.edges, Reading(x)), Target(), n), InClass(Share(g.edges, Reading(y)), Target(), n);
    var cg := InClass(Share(g.edges, Gap(x, y)), Target(), n);
    var diff: RankEdge -> real := (e: RankEdge) => cy(e) - cx(e);
    SumSub(g.edges, cy, cx, diff);
    forall e | e in g.edges ensures Abs(diff(e)) <= cg(e) {
      ShareGap(g, x, y, e);
    }
    SumAbs(g.edges, diff, cg);
  }

  lemma AlongGap(a: real, b: real, w: real, ow: real)
    requires w >= 0.0
    ensures Abs(Along(a, w, ow) - Along(b, w, ow)) == Along(Abs(a - b), w, ow)
  {
    if ow > 0.0 {
      var k := w / ow;
      assert Along(a, w, ow) == a * k && Along(b, w, ow) == b * k && Along(Abs(a - b), w, ow) == Abs(a - b) * k;
      AbsMul(k, a - b);
    }
  }

  lemma AbsMul(k: real, a: real)
    requires k >= 0.0
    ensures Abs(k * a) == k * Abs(a)
  {
    if a >= 0.0 { MulNonNeg(k, a); } else { MulNonNeg(k, -a); }
  }

  lemma DanglingGap(g: Graph, x: Ranks, y: Ranks)
    ensures Abs(Dangling(g, Reading(y)) - Dangling(g, Reading(x))) <= Dangling(g, Gap(x, y))
  {
    var dx, dy := IfDangling(g.edges, Reading(x)), IfDangling(g.edges, Reading(y));
    var diff: Node -> real := n => dy(n) - dx(n);
    SumSub(g.nodes, dy, dx, diff);
    SumAbs(g.nodes, diff, IfDangling(g.edges, Gap(x, y)));
  }

  lemma NodeContraction(g: Graph, pers: Ranks, d: real, x: Ranks, y: Ranks, n: Node)
    requires Weighted(g) && 0.0 <= d && Get(pers, n, 0.0) >= 0.0
    ensures Abs(NodeRank(g, pers, d, y, n) - NodeRank(g, pers, d, x, n))
         <= Lin(Times(d, Dangling(g, Gap(x, y))), Get(pers, n, 0.0), d, Inflow(g.edges, Gap(x, y))(n))
  {
    InflowGap(g, x, y, n);
    DanglingGap(g, x, y);
    NodeBound(d, Get(pers, n, 0.0), Dangling(g, Reading(x)), Dangling(g, Reading(y)), Dangling(g, Gap(x, y)),
      Inflow(g.edges, Reading(x))(n), Inflow(g.edges, Reading(y))(n), Inflow(g.edges, Gap(x, y))(n));
  }

  lemma NodeBound(d: real, p: real, dx: real, dy: real, dg: real, ix: real, iy: real, ig: real)
    requires 0.0 <= d && p >= 0.0 && Abs(dy - dx) <= dg && Abs(iy - ix) <= ig
    ensures Abs(Blend(d, dy, p, iy) - Blend(d, dx, p, ix)) <= Lin(Times(d, dg), p, d, ig)
  {
    MulNonNeg(d, p);
    LinAbs(Times(d, p), dy - dx, d, iy - ix, dg, ig);
    BlendDifference(d, p, dx, dy, ix, iy);
    Swap(d, p, dg, ig);
  }

  lemma BlendDifference(d: real, p: real, dx: real, dy: real, ix: real, iy: real)
    ensures Blend(d, dy, p, iy) - Blend(d, dx, p, ix) == Lin(Times(d, p), dy - dx, d, iy - ix)
  {}

  lemma Swap(d: real, p: real, dg: real, ig: real)
    ensures Lin(Times(d, p), dg, d, ig) == Lin(Times(d, dg), p, d, ig)
  {}

  lemma DistanceOfSteps(g: Graph, pers: Ranks, d: real, x: Ranks, y: Ranks)
    requires Weighted(g) && 0.0 <= d && SubDistribution(g.nodes, pers)
    ensures Distance(g.nodes, Step(g, pers, d, x), Step(g, pers, d, y))
         <= Lin(Times(d, Dangling(g, Gap(x, y))), Total(g.nodes, pers), d, Sum(g.nodes, Inflow(g.edges, Gap(x, y))))
  {
    var gap := Gap(x, y);
    var a := Times(d, Dangling(g, gap));
    var bound := LinOf(a, Reading(pers), d, Inflow(g.edges, gap));
    forall n | n in g.nodes ensures Gap(Step(g, pers, d, x), Step(g, pers, d, y))(n) <= bound(n) {
      NodeContraction(g, pers, d, x, y, n);
    }
    SumMono(g.nodes, Gap(Step(g, pers, d, x), Step(g, pers, d, y)), bound);
    Combine(g.nodes, a, Reading(pers), d, Inflow(g.edges, gap));
  }

  // One iteration brings any two vectors closer by the damping factor, on every weighted graph.
  lemma Contraction(g: Graph, pers: Ranks, d: real, x: Ranks, y: Ranks)
    requires Weighted(g) && 0.0 <= d && SubDistribution(g.nodes, pers)
    requires OnNodes(g.nodes, x) && OnNodes(g.nodes, y)
    ensures Distance(g.nodes, Step(g, pers, d, x), Step(g, pers, d, y)) <= Times(d, Distance(g.nodes, x, y))
  {
    var gap := Gap(x, y);
    DistanceOfSteps(g, pers, d, x, y);
    GapFlow(g, x, y);
    ContractionBound(d, Dangling(g, gap), Sum(g.nodes, Inflow(g.edges, gap)), Total(g.nodes, pers),
                     Distance(g.nodes, x, y));
  }

  lemma GapFlow(g: Graph, x: Ranks, y: Ranks)
    requires Weighted(g) && OnNodes(g.nodes, x) && OnNodes(g.nodes, y)
    ensures Dangling(g, Gap(x, y)) >= 0.0
    ensures Dangling(g, Gap(x, y)) + Sum(g.nodes, Inflow(g.edges, Gap(x, y))) <= Distance(g.nodes, x, y)
  {
    var gap := Gap(x, y);
    FlowConserved(g, gap);
    DanglingAndFlowing(g, gap);
    SumNonNeg(g.nodes, IfDangling(g.edges, gap));
  }

  lemma ContractionBound(d: real, dm: real, fl: real, p: real, dist: real)
    requires 0.0 <= d && dm >= 0.0 && p <= 1.0 && dm + fl <= dist
    ensures Lin(Times(d, dm), p, d, fl) <= Times(d, dist)
  {
    MulNonNeg(d, dm);
    TimesMono(Times(d, dm), p, 1.0);
    TimesMono(d, dm + fl, dist);
  }

  lemma DistanceBound(ns: seq<Node>, x: Ranks, y: Ranks)
    requires SubDistribution(ns, x) && SubDistribution(ns, y)
    ensures Distance(ns, x, y) <= 2.0
  {
    var both: Node -> real := n => Get(x, n, 0.0) + Get(y, n, 0.0);
    SumAdd(ns, Reading(x), Reading(y), both);
    SumMono(ns, Gap(x, y), both);
  }

  lemma DistanceTriangle(ns: seq<Node>, x: Ranks, y: Ranks, z: Ranks)
    ensures Distance(ns, x, z) <= Distance(ns, x, y) + Distance(ns, y, z)
  {
    SumAdd(ns, Gap(x, y), Gap(y, z), Plus(Gap(x, y), Gap(y, z)));
    forall n | n in ns ensures Gap(x, z)(n) <= Plus(Gap(x, y), Gap(y, z))(n) {
      TriangleAbs(Get(x, n, 0.0), Get(y, n, 0.0), Get(z, n, 0.0));
    }
    SumMono(ns, Gap(x, z), Plus(Gap(x, y), Gap(y, z)));
  }

  lemma TriangleAbs(a: real, b: real, c: real)
    ensures Abs(c - a) <= Abs(b - a) + Abs(c - b)
  {}

  // ----- the whole loop -----

  lemma {:induction false} PowAdd(d: real, j: nat, k: nat)
    ensures Pow(d, j + k) == Pow(d, j) * Pow(d, k)
  {
    if j > 0 {
      PowAdd(d, j - 1, k);
    }
  }

  lemma {:induction false} PowerKeepsMass(g: Graph, pers: Ranks, d: real, eps: real, fuel: nat, x: Ranks)
    requires Weighted(g) && 0.0 <= d <= 1.0
    requires SubDistribution(g.nodes, pers) && SubDistribution(g.nodes, x)
    ensures SubDistribution(g.nodes, Power(g, pers, d, eps, fuel, x).ranks)
    ensures Proper(g) && Distribution(g.nodes, pers) && Distribution(g.nodes, x)
        ==> Distribution(g.nodes, Power(g, pers, d, eps, fuel, x).ranks)
  {
    if fuel > 0 {
      StepKeepsMass(g, pers, d, x);
      PowerKeepsMass(g, pers, d, eps, fuel - 1, Step(g, pers, d, x));
    }
  }

  lemma {:induction false} PowerConverges(g: Graph, pers: Ranks, d: real, eps: real, fuel: nat, x: Ranks)
    requires Weighted(g) && 0.0 <= d <= 1.0 && SubDistribution(g.nodes, pers) && OnNodes(g.nodes, x)
    requires fuel > 0 && Times(Pow(d, fuel - 1), Distance(g.nodes, x, Step(g, pers, d, x))) < eps
    ensures Power(g, pers, d, eps, fuel, x).converged
  {
    var next := Step(g, pers, d, x);
    var gap := Distance(g.nodes, x, next);
    if gap >= eps {
      assert fuel > 1;
      Contraction(g, pers, d, x, next);
      var gap' := Distance(g.nodes, next, Step(g, pers, d, next));
      PowNonNeg(d, fuel - 2);
      TimesMono(Pow(d, fuel - 2), gap', Times(d, gap));
      PowShift(d, fuel - 2, gap);
      PowerConverges(g, pers, d, eps, fuel - 1, next);
    }
  }

  lemma PowShift(d: real, k: nat, a: real)
    ensures Times(Pow(d, k), Times(d, a)) == Times(Pow(d, k + 1), a)
  {}

  lemma {:induction false} PowNonNeg(d: real, k: nat)
    requires d >= 0.0
    ensures Pow(d, k) >= 0.0
  {
    if k > 0 {
      PowNonNeg(d, k - 1);
    }
  }

  // A converged result is within d/(1-d) * eps of every stationary vector.
  lemma {:induction false} ConvergedIsNearStationary(g: Graph, pers: Ranks, d: real, eps: real, fuel: nat, x: Ranks,
                                                     p: Ranks)
    requires Weighted(g) && 0.0 <= d < 1.0 && SubDistribution(g.nodes, pers)
    requires OnNodes(g.nodes, x) && OnNodes(g.nodes, p) && Step(g, pers, d, p) == p
    requires Power(g, pers, d, eps, fuel, x).converged
    ensures Times(1.0 - d, Distance(g.nodes, Power(g, pers, d, eps, fuel, x).ranks, p)) <= Times(d, eps)
  {
    var next := Step(g, pers, d, x);
    if Distance(g.nodes, x, next) < eps {
      Contraction(g, pers, d, x, p);
      DistanceTriangle(g.nodes, x, next, p);
      NearBound(d, eps, Distance(g.nodes, next, p), Distance(g.nodes, x, p), Distance(g.nodes, x, next));
    } else {
      ConvergedIsNearStationary(g, pers, d, eps, fuel - 1, next, p);
    }
  }

  lemma NearBound(d: real, eps: real, a: real, b: real, c: real)
    requires 0.0 <= d && a <= Times(d, b) && b <= c + a && c <= eps
    ensures Times(1.0 - d, a) <= Times(d, eps)
  {
    TimesMono(d, b, eps + a);
  }

  lemma DefaultsAreEnough()
    ensures Pow(0.85, 99) * 2.0 < 0.000001
  {
    var d := 0.85;
    assert Pow(d, 0) == 1.0 && Pow(d, 1) == 0.85 && Pow(d, 2) == 0.7225 && Pow(d, 3) == 0.614125;
    PowAdd(d, 3, 3);
    PowAdd(d, 6, 6);
    PowAdd(d, 12, 12);
    PowAdd(d, 24, 24);
    PowAdd(d, 48, 48);
    PowAdd(d, 96, 3);
    var p6, p12, p24, p48 := Pow(d, 6), Pow(d, 12), Pow(d, 24), Pow(d, 48);
    assert 0.0 <= p6 <= 0.37715;
    assert p12 <= 0.37715 * 0.37715 <= 0.14225;
    assert p24 <= 0.14225 * 0.14225 <= 0.02024;
    assert p48 <= 0.02024 * 0.02024 <= 0.00041;
    assert Pow(d, 96) <= 0.00041 * 0.00041;
  }

  // With the default settings the loop leaves through the epsilon test on every weighted graph.
  lemma DefaultRunConverges(g: Graph, pers: Ranks)
    requires Weighted(g) && SubDistribution(g.nodes, pers)
    ensures Power(g, pers, DEFAULT_DAMPING, DEFAULT_EPSILON, DEFAULT_MAX_ITERATIONS, pers).converged
  {
    var d := DEFAULT_DAMPING;
    var next := Step(g, pers, d, pers);
    StepKeepsMass(g, pers, d, pers);
    DistanceBound(g.nodes, pers, next);
    DefaultsAreEnough();
    PowNonNeg(d, 99);
    TimesMono(Pow(d, 99), Distance(g.nodes, pers, next), 2.0);
    PowerConverges(g, pers, d, DEFAULT_EPSILON, DEFAULT_MAX_ITERATIONS, pers);
  }

  // There is at most one stationary vector.
  lemma StationaryUnique(g: Graph, pers: Ranks, d: real, p: Ranks, q: Ranks)
    requires Weighted(g) && 0.0 <= d < 1.0 && SubDistribution(g.nodes, pers)
    requires OnNodes(g.nodes, p) && Step(g, pers, d, p) == p
    requires OnNodes(g.nodes, q) && Step(g, pers, d, q) == q
    ensures p == q
  {
    Contraction(g, pers, d, p, q);
    SumNonNeg(g.nodes, Gap(p, q));
    NotPositive(d, Distance(g.nodes, p, q));
    forall n | n in p ensures p[n] == q[n] {
      ZeroDistance(g.nodes, p, q, n);
    }
  }

  lemma NotPositive(d: real, a: real)
    requires d < 1.0 && a >= 0.0 && a <= Times(d, a)
    ensures a == 0.0
  {
    if a > 0.0 {
      MulPos(1.0 - d, a);
    }
  }

  lemma MulPos(a: real, b: real)
    requires a > 0.0 && b > 0.0
    ensures a * b > 0.0
  {}

  lemma {:induction false} ZeroDistance(ns: seq<Node>, x: Ranks, y: Ranks, n: Node)
    requires n in ns && Distance(ns, x, y) == 0.0
    ensures Get(x, n, 0.0) == Get(y, n, 0.0)
  {
    var init, last := ns[..|ns| - 1], ns[|ns| - 1];
    SumNonNeg(init, Gap(x, y));
    if last != n {
      ZeroDistance(init, x, y, n);
    }
  }

  // ----- the teleport vector -----

  ghost predicate NonNegativeWeights(w: Weights) {
    forall p :: p in w ==> p.1 >= 0.0
  }

  // Some weight sits on a key that is no node.
  ghost predicate WeightOutside(ns: seq<Node>, w: Weights) {
    exists p :: p in w && p.1 > 0.0 && p.0 !in ns
  }

  ghost function Amount(): ((Node, real)) -> real { (p: (Node, real)) => p.1 }

  ghost function Key(): ((Node, real)) -> Node { (p: (Node, real)) => p.0 }

  lemma {:induction false} WeightOfIsClassSum(w: Weights, n: Node)
    requires DistinctKeys(w)
    ensures WeightOf(w, n) == Sum(w, InClass(Amount(), Key(), n))
  {
    if w != [] {
      WeightOfIsClassSum(w[1..], n);
      SumFront(w, InClass(Amount(), Key(), n));
      if w[0].0 == n {
        SumZero(w[1..], InClass(Amount(), Key(), n));
      }
    }
  }

  lemma {:induction false} SumFront<T>(s: seq<T>, f: T -> real)
    requires s != []
    ensures Sum(s, f) == f(s[0]) + Sum(s[1..], f)
  {
    if |s| > 1 {
      SumFront(s[..|s| - 1], f);
      assert s[..|s| - 1][1..] == s[1..][..|s| - 2];
    }
  }

  ghost function Inside(ns: seq<Node>): ((Node, real)) -> real {
    (p: (Node, real)) => if p.0 in ns then p.1 else 0.0
  }

  ghost function WeightIn(w: Weights): Node -> real {
    (n: Node) => WeightOf(w, n)
  }

  // The weight found on the nodes is the weight of the entries whose key is a node.
  lemma WeightOnNodes(ns: seq<Node>, w: Weights)
    requires Distinct(ns) && DistinctKeys(w)
    ensures Sum(ns, WeightIn(w)) == Sum(w, Inside(ns))
  {
    SumByClass(ns, w, Inside(ns), Key());
    forall n | n in ns ensures WeightOf(w, n) == ClassSum(w, Inside(ns), Key())(n) {
      WeightOfIsClassSum(w, n);
      SumCong(w, InClass(Amount(), Key(), n), InClass(Inside(ns), Key(), n));
    }
    SumCong(ns, WeightIn(w), ClassSum(w, Inside(ns), Key()));
  }

  lemma {:induction false} InsideWeight(ns: seq<Node>, w: Weights)
    requires NonNegativeWeights(w)
    ensures Sum(w, Inside(ns)) <= WeightTotal(w)
    ensures Sum(w, Inside(ns)) == WeightTotal(w) <==> !WeightOutside(ns, w)
  {
    if w != [] {
      InsideWeight(ns, w[..|w| - 1]);
      assert forall p :: p in w <==> p in w[..|w| - 1] || p == w[|w| - 1];
    }
  }

  // Teleporting is by a probability distribution exactly when it is uniform or no weight falls outside the nodes.
  lemma TeleportMass(ns: seq<Node>, w: Weights)
    requires ns != [] && Distinct(ns) && DistinctKeys(w) && NonNegativeWeights(w)
    ensures SubDistribution(ns, Teleport(ns, w))
    ensures Distribution(ns, Teleport(ns, w)) <==> !(Personalized(ns, w) && WeightOutside(ns, w))
  {
    var pers := Teleport(ns, w);
    if Personalized(ns, w) {
      var t := WeightTotal(w);
      WeightOnNodes(ns, w);
      InsideWeight(ns, w);
      forall n | n in ns ensures pers[n] >= 0.0 && Reading(pers)(n) == Quotients(w, t)(n) {
        WeightOfNonNeg(w, n);
        QuotientNonNeg(WeightOf(w, n), t);
      }
      SumCong(ns, Reading(pers), Quotients(w, t));
      SumQuotient(ns, w, t);
      Ratio(Sum(w, Inside(ns)), t);
    } else {
      SumConst(ns, Reading(pers), 1.0 / |ns| as real);
    }
  }

  ghost function Quotients(w: Weights, t: real): Node -> real
    requires t > 0.0
  {
    (n: Node) => WeightOf(w, n) / t
  }

  lemma QuotientNonNeg(a: real, t: real)
    requires a >= 0.0 && t > 0.0
    ensures a / t >= 0.0
  {}

  lemma SumQuotient(ns: seq<Node>, w: Weights, t: real)
    requires t > 0.0
    ensures Sum(ns, Quotients(w, t)) == Sum(ns, WeightIn(w)) / t
  {
    forall n | n in ns ensures Quotients(w, t)(n) == (1.0 / t) * WeightIn(w)(n) {
      DivMul(1.0, WeightOf(w, n), t);
    }
    SumScale(ns, WeightIn(w), 1.0 / t, Quotients(w, t));
    DivMul(1.0, Sum(ns, WeightIn(w)), t);
  }

  lemma Ratio(a: real, t: real)
    requires t > 0.0 && a <= t
    ensures a / t <= 1.0 && (a / t == 1.0 <==> a == t)
  {
    assert (a / t) * t == a;
  }

  lemma {:induction false} WeightOfNonNeg(w: Weights, n: Node)
    requires NonNegativeWeights(w)
    ensures WeightOf(w, n) >= 0.0
  {
    if w != [] {
      assert w[0] in w;
      assert forall p :: p in w[1..] ==> p in w;
      WeightOfNonNeg(w[1..], n);
    }
  }

  // ----- main results about `Rank` -----

  // Mass below one stays below one.
  lemma LessBound(d: real, dm: real, fl: real, p: real)
    requires 0.0 <= d <= 1.0 && dm >= 0.0 && fl >= 0.0 && dm + fl < 1.0 && 0.0 <= p < 1.0
    ensures Lin(Teleported(d, dm), p, d, fl) < 1.0
  {
    TimesMono(dm, p, 1.0);
    var arriving := Times(dm, p) + fl;
    LessMix(d, p, arriving);
    assert Lin(Teleported(d, dm), p, d, fl) == (1.0 - d) * p + d * (dm * p + fl);
  }

  lemma LessMix(d: real, p: real, q: real)
    requires 0.0 <= d <= 1.0 && p < 1.0 && q < 1.0
    ensures (1.0 - d) * p + d * q < 1.0
  {
    var m := if p < q then q else p;
    TimesMono(1.0 - d, p, m);
    TimesMono(d, q, m);
    assert Times(1.0 - d, m) + Times(d, m) == m;
  }

  lemma StepStaysBelow(g: Graph, pers: Ranks, d: real, x: Ranks)
    requires Proper(g) && 0.0 <= d <= 1.0
    requires SubDistribution(g.nodes, pers) && SubDistribution(g.nodes, x)
    requires Total(g.nodes, pers) < 1.0 && Total(g.nodes, x) < 1.0
    ensures Total(g.nodes, Step(g, pers, d, x)) < 1.0
  {
    var f := Reading(x);
    StepTotal(g, pers, d, x);
    FlowConserved(g, f);
    DanglingAndFlowing(g, f);
    SumNonNeg(g.nodes, Reading(pers));
    SumNonNeg(g.nodes, IfDangling(g.edges, f));
    forall n | n in g.nodes ensures Inflow(g.edges, f)(n) >= 0.0 { InflowNonNeg(g, f, n); }
    SumNonNeg(g.nodes, Inflow(g.edges, f));
    LessBound(d, Dangling(g, f), Sum(g.nodes, Inflow(g.edges, f)), Total(g.nodes, pers));
  }

  lemma {:induction false} PowerStaysBelow(g: Graph, pers: Ranks, d: real, eps: real, fuel: nat, x: Ranks)
    requires Proper(g) && 0.0 <= d <= 1.0
    requires SubDistribution(g.nodes, pers) && SubDistribution(g.nodes, x)
    requires Total(g.nodes, pers) < 1.0 && Total(g.nodes, x) < 1.0
    ensures Total(g.nodes, Power(g, pers, d, eps, fuel, x).ranks) < 1.0
  {
    hide Step, SubDistribution;
    if fuel > 0 {
      StepKeepsMass(g, pers, d, x);
      StepStaysBelow(g, pers, d, x);
      PowerStaysBelow(g, pers, d, eps, fuel - 1, Step(g, pers, d, x));
    }
  }

  // Whatever the damping, the epsilon and the number of iterations, the result is a probability distribution over the
  // nodes exactly when no weight is lost: some node is personalized and some weight lies outside the nodes.
  lemma RankIsDistribution(g: Graph, w: Weights, d: real, maxIterations: int, eps: real)
    requires g.nodes != [] && Proper(g) && 0.0 <= d <= 1.0
    requires DistinctKeys(w) && NonNegativeWeights(w)
    ensures Distribution(g.nodes, RankOf(g, w, d, maxIterations, eps)) <==>
      !(Personalized(g.nodes, w) && WeightOutside(g.nodes, w))
  {
    var pers := Teleport(g.nodes, w);
    var fuel := if maxIterations < 0 then 0 else maxIterations;
    TeleportMass(g.nodes, w);
    if Personalized(g.nodes, w) && WeightOutside(g.nodes, w) {
      PowerStaysBelow(g, pers, d, eps, fuel, pers);
    } else {
      PowerKeepsMass(g, pers, d, eps, fuel, pers);
    }
  }

  // One weight on the only node and one elsewhere: the ranks do not add up to one.
  lemma WeightIsLost(a: Node, b: Node, d: real, maxIterations: int, eps: real)
    requires a != b && 0.0 <= d <= 1.0
    ensures !Distribution([a], RankOf(Graph([a], []), [(a, 1.0), (b, 1.0)], d, maxIterations, eps))
  {
    var g := Graph([a], []);
    var w: Weights := [(a, 1.0), (b, 1.0)];
    var one, none: Weights := w[..1], [];
    assert one[..0] == none && WeightTotal(one) == WeightTotal(none) + 1.0;
    assert WeightTotal(w) == WeightTotal(one) + 1.0;
    assert WeightOf(w, a) == 1.0;
    assert a in g.nodes;
    assert (b, 1.0) in w && b !in g.nodes;
    RankIsDistribution(g, w, d, maxIterations, eps);
  }

  // A default run returns a vector within 17/3 of a millionth of the stationary one, wherever its edges lead.
  lemma DefaultRunIsAccurate(g: Graph, w: Weights, p: Ranks)
    requires g.nodes != [] && Weighted(g) && DistinctKeys(w) && NonNegativeWeights(w)
    requires OnNodes(g.nodes, p) && Step(g, Teleport(g.nodes, w), DEFAULT_DAMPING, p) == p
    ensures var pers := Teleport(g.nodes, w);
      var out := Power(g, pers, DEFAULT_DAMPING, DEFAULT_EPSILON, DEFAULT_MAX_ITERATIONS, pers);
      out.converged && 3.0 * Distance(g.nodes, out.ranks, p) <= 17.0 * DEFAULT_EPSILON
  {
    TeleportMass(g.nodes, w);
    var pers := Teleport(g.nodes, w);
    DefaultRunConverges(g, pers);
    ConvergedIsNearStationary(g, pers, DEFAULT_DAMPING, DEFAULT_EPSILON, DEFAULT_MAX_ITERATIONS, pers, p);
  }
}
