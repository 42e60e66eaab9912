// The operator M = L - I on the compressed rows, and the Chebyshev vectors built from it (src/codemap/heat.ts).
module Chebyshev {
  import opened Basics
  import opened Sums
  import opened PageRank
  import opened HeatPairs
  import opened HeatCsr

  // ----- vectors -----

  function At(v: seq<real>, i: nat): real { if i < |v| then v[i] else 0.0 }

  function Upto(n: nat): (s: seq<nat>)
    ensures |s| == n && forall i :: 0 <= i < n ==> s[i] == i
  {
    seq(n, (i: nat) => i)
  }

  function Combine(a: real, x: seq<real>, b: real, y: seq<real>): (r: seq<real>)
    ensures |r| == |x|
  {
    seq(|x|, (i: nat) => Times(a, At(x, i)) + Times(b, At(y, i)))
  }

  ghost function DotTerm(x: seq<real>, y: seq<real>): nat -> real {
    (i: nat) => Times(At(x, i), At(y, i))
  }

  ghost function Dot(x: seq<real>, y: seq<real>): real {
    Sum(Upto(|x|), DotTerm(x, y))
  }

  lemma TimesIs(x: real, y: real)
    ensures Times(x, y) == x * y
  {}

  // ----- the operator -----

  // 1/sqrt of each degree, 0 for an isolated node.
  ghost predicate InverseRoots(pairs: seq<Pair>, inv: seq<real>) {
    forall i :: 0 <= i < |inv| ==> InverseRoot(Degree(pairs, i), inv[i])
  }

  ghost predicate InverseRoot(deg: real, r: real) {
    r >= 0.0 && if deg > 0.0 then r * r * deg == 1.0 else r == 0.0
  }

  ghost function Scaled(inv: seq<real>, x: seq<real>): nat -> real {
    (i: nat) => Times(At(inv, i), At(x, i))
  }

  ghost function FlowTerm(u: nat -> real): Cell -> real {
    (c: Cell) => Times(c.w, u(c.col))
  }

  ghost function Flow(pairs: seq<Pair>, i: nat, u: nat -> real): real {
    Sum(Row(pairs, i), FlowTerm(u))
  }

  ghost function NegP(pairs: seq<Pair>, inv: seq<real>, x: seq<real>): (y: seq<real>)
    ensures |y| == |x|
  {
    seq(|x|, (i: nat) => -Times(At(inv, i), Flow(pairs, i, Scaled(inv, x))))
  }

  // root[i] is 1 / Math.sqrt(deg[i]), as the host's square root gives it.
  ghost predicate Roots(deg: seq<real>, root: seq<real>) {
    |root| == |deg| && forall i :: 0 <= i < |deg| && deg[i] > 0.0 ==> InverseRoot(deg[i], root[i])
  }

  function InvOf(deg: seq<real>, root: seq<real>): (inv: seq<real>)
    ensures |inv| == |deg|
  {
    seq(|deg|, (i: nat) => if At(deg, i) > 0.0 then At(root, i) else 0.0)
  }

  lemma InvOfIsInverse(csr: Csr, pairs: seq<Pair>, root: seq<real>)
    requires IsCsr(csr, pairs) && Roots(csr.deg[..], root) && PairsBelow(pairs, csr.n)
    ensures InverseRoots(pairs, InvOf(csr.deg[..], root))
  {
    hide Laid, Tight, PairsBelow;
    forall i: nat | i < csr.n ensures InverseRoot(Degree(pairs, i), InvOf(csr.deg[..], root)[i]) {
      assert csr.deg[i] == Degree(pairs, i);
    }
  }

  method InvSqrt(deg: array<real>, root: seq<real>) returns (inv: array<real>)
    requires |root| == deg.Length
    ensures fresh(inv) && inv[..] == InvOf(deg[..], root)
  {
    inv := new real[deg.Length](_ => 0.0);
    for i := 0 to deg.Length
      invariant deg[..] == old(deg[..])
      invariant forall j :: 0 <= j < i ==> inv[j] == if deg[j] > 0.0 then root[j] else 0.0
    {
      inv[i] := if deg[i] > 0.0 then root[i] else 0.0;
    }
  }

  // w * r * x, in the order in which the loop multiplies.
  function Product(w: real, r: real, x: real): (p: real)
    ensures p == Times(w, Times(r, x))
  {
    w * r * x
  }

  // One row of the product.
  method RowProduct(csr: Csr, ghost pairs: seq<Pair>, i: nat, inv: array<real>, x: array<real>) returns (acc: real)
    requires IsCsr(csr, pairs) && i < csr.n && PairsBelow(pairs, csr.n)
    requires inv.Length == x.Length == csr.n
    ensures acc == Flow(pairs, i, Scaled(inv[..], x[..]))
  {
    acc := 0.0;
    var s, e := csr.rowPtr[i], csr.rowPtr[i + 1];
    ghost var row := Rows(pairs, csr.n)[i];
    ghost var u := Scaled(inv[..], x[..]);
    RowInRange(pairs, csr.n, i);
    assert Holds(row, s, csr.col[..], csr.w[..]) && e == s + |row|;
    hide IsCsr, Laid, Row, Rows, Tight, PairsBelow;
    for p := s to e
      invariant acc == Sum(row[..p - s], FlowTerm(u))
    {
      ghost var cell := row[p - s];
      assert csr.col[p] == cell.col && csr.w[p] == cell.w && cell in row;
      SumStep(row, p - s, FlowTerm(u));
      var term := Product(csr.w[p], inv[csr.col[p]], x[csr.col[p]]);
      assert term == FlowTerm(u)(cell);
      acc := acc + term;
    }
    assert row[..|row|] == row;
  }

  method ApplyNegP(csr: Csr, ghost pairs: seq<Pair>, root: seq<real>, x: array<real>) returns (y: array<real>)
    requires IsCsr(csr, pairs) && PairsBelow(pairs, csr.n) && x.Length == csr.n && |root| == csr.n
    ensures fresh(y) && y[..] == NegP(pairs, InvOf(csr.deg[..], root), x[..])
  {
    hide Laid, Tight, Rows, Degree, PairsBelow, Flow;
    var n := csr.n;
    var invSqrt := InvSqrt(csr.deg, root);
    hide IsCsr, InvOf;
    ghost var inv := invSqrt[..];
    y := new real[n](_ => 0.0);
    for i := 0 to n
      invariant IsCsr(csr, pairs) && invSqrt[..] == inv && x[..] == old(x[..])
      invariant forall j :: 0 <= j < i ==> y[j] == -Times(At(inv, j), Flow(pairs, j, Scaled(inv, x[..])))
    {
      var acc := RowProduct(csr, pairs, i, invSqrt, x);
      y[i] := -invSqrt[i] * acc;
      NegTimes(invSqrt[i], acc);
    }
  }

  lemma NegTimes(r: real, acc: real)
    ensures -r * acc == -Times(r, acc)
  {}

  lemma MulStrict(x: real, y: real, z: real)
    requires x < y && 0.0 < z
    ensures x * z < y * z
  {}

  // ----- rows and pairs -----

  ghost function RowTerm(g: (nat, Cell) -> real, i: nat): Cell -> real {
    (c: Cell) => g(i, c)
  }

  ghost function RowTotal(pairs: seq<Pair>, g: (nat, Cell) -> real): nat -> real {
    (i: nat) => Sum(Row(pairs, i), RowTerm(g, i))
  }

  ghost function BothEnds(g: (nat, Cell) -> real): Pair -> real {
    (p: Pair) => g(p.a, Cell(p.b, p.w)) + g(p.b, Cell(p.a, p.w))
  }

  ghost function OnlyAt(j: nat, v: real): nat -> real {
    (i: nat) => if i == j then v else 0.0
  }

  lemma SumOnly(n: nat, j: nat, v: real)
    requires j < n
    ensures Sum(Upto(n), OnlyAt(j, v)) == v
  {
    assert Upto(n)[j] in Upto(n);
    SumSingle(Upto(n), j, OnlyAt(j, v));
  }

  lemma RowTotalStep(init: seq<Pair>, p: Pair, g: (nat, Cell) -> real, i: nat)
    requires p.a != p.b
    ensures RowTotal(init + [p], g)(i)
         == RowTotal(init, g)(i) + OnlyAt(p.a, g(p.a, Cell(p.b, p.w)))(i) + OnlyAt(p.b, g(p.b, Cell(p.a, p.w)))(i)
  {
    assert (init + [p])[..|init|] == init;
    if p.a == i {
      SumSnoc(Row(init, i), Cell(p.b, p.w), RowTerm(g, i));
    } else if p.b == i {
      SumSnoc(Row(init, i), Cell(p.a, p.w), RowTerm(g, i));
    } else {
      assert Row(init, i) + [] == Row(init, i);
    }
  }

  // Summing over the cells of all rows is summing over the pairs, each seen from both ends.
  lemma {:induction false} CellsAreEnds(pairs: seq<Pair>, n: nat, g: (nat, Cell) -> real)
    requires PairsBelow(pairs, n)
    ensures Sum(Upto(n), RowTotal(pairs, g)) == Sum(pairs, BothEnds(g))
  {
    if pairs == [] {
      SumZero(Upto(n), RowTotal(pairs, g));
    } else {
      var init, p := pairs[..|pairs| - 1], pairs[|pairs| - 1];
      assert pairs == init + [p];
      CellsAreEnds(init, n, g);
      var first, second := OnlyAt(p.a, g(p.a, Cell(p.b, p.w))), OnlyAt(p.b, g(p.b, Cell(p.a, p.w)));
      var both := (i: nat) => first(i) + second(i);
      hide Row;
      forall i: nat ensures RowTotal(pairs, g)(i) == RowTotal(init, g)(i) + both(i) {
        RowTotalStep(init, p, g, i);
      }
      SumOnly(n, p.a, first(p.a));
      SumOnly(n, p.b, second(p.b));
      SumAdd(Upto(n), first, second, both);
      SumAdd(Upto(n), RowTotal(init, g), both, RowTotal(pairs, g));
    }
  }

  // ----- self-adjointness -----

  ghost function Cross(u: nat -> real, v: nat -> real): (nat, Cell) -> real {
    (i: nat, c: Cell) => Times(u(i), Times(c.w, v(c.col)))
  }

  lemma CrossRow(pairs: seq<Pair>, i: nat, u: nat -> real, v: nat -> real)
    ensures RowTotal(pairs, Cross(u, v))(i) == Times(u(i), Flow(pairs, i, v))
  {
    hide Row;
    forall c: Cell ensures RowTerm(Cross(u, v), i)(c) == u(i) * FlowTerm(v)(c) {
      TimesIs(u(i), FlowTerm(v)(c));
    }
    TimesIs(u(i), Flow(pairs, i, v));
    hide Times;
    SumScale(Row(pairs, i), FlowTerm(v), u(i), RowTerm(Cross(u, v), i));
  }

  lemma Regroup(x: real, r: real, f: real)
    ensures Times(x, -Times(r, f)) == -1.0 * Times(Times(r, x), f)
  {}

  // The bilinear form of the operator is minus the sum over the pairs.
  lemma FormIsPairSum(pairs: seq<Pair>, inv: seq<real>, x: seq<real>, y: seq<real>)
    requires PairsBelow(pairs, |x|) && |y| == |x|
    ensures Dot(x, NegP(pairs, inv, y)) == -Sum(pairs, BothEnds(Cross(Scaled(inv, x), Scaled(inv, y))))
  {
    var u, v := Scaled(inv, x), Scaled(inv, y);
    hide RowTotal, Cross, Flow, Times;
    forall i: nat | i < |x| ensures DotTerm(x, NegP(pairs, inv, y))(i) == -1.0 * RowTotal(pairs, Cross(u, v))(i) {
      CrossRow(pairs, i, u, v);
      Regroup(At(x, i), At(inv, i), Flow(pairs, i, v));
    }
    hide NegP, DotTerm;
    SumScale(Upto(|x|), RowTotal(pairs, Cross(u, v)), -1.0, DotTerm(x, NegP(pairs, inv, y)));
    CellsAreEnds(pairs, |x|, Cross(u, v));
    assert Dot(x, NegP(pairs, inv, y)) == -1.0 * Sum(Upto(|x|), RowTotal(pairs, Cross(u, v)));
    MinusOne(Sum(Upto(|x|), RowTotal(pairs, Cross(u, v))));
  }

  lemma MinusOne(x: real)
    ensures -1.0 * x == -x
  {}

  lemma SwapProduct(w: real, p: real, q: real, r: real, s: real)
    ensures Times(p, Times(w, q)) + Times(r, Times(w, s)) == Times(s, Times(w, r)) + Times(q, Times(w, p))
  {}

  lemma SelfAdjoint(pairs: seq<Pair>, inv: seq<real>, x: seq<real>, y: seq<real>)
    requires PairsBelow(pairs, |x|) && |y| == |x|
    ensures Dot(x, NegP(pairs, inv, y)) == Dot(NegP(pairs, inv, x), y)
  {
    var u, v := Scaled(inv, x), Scaled(inv, y);
    FormIsPairSum(pairs, inv, x, y);
    FormIsPairSum(pairs, inv, y, x);
    forall p | p in pairs ensures BothEnds(Cross(u, v))(p) == BothEnds(Cross(v, u))(p) {
      SwapProduct(p.w, u(p.a), v(p.b), u(p.b), v(p.a));
    }
    SumCong(pairs, BothEnds(Cross(u, v)), BothEnds(Cross(v, u)));
    DotSwaps(y, NegP(pairs, inv, x));
  }

  lemma DotSwaps(x: seq<real>, y: seq<real>)
    requires |x| == |y|
    ensures Dot(x, y) == Dot(y, x)
  {
    SumCong(Upto(|x|), DotTerm(x, y), DotTerm(y, x));
  }

  // ----- the spectrum -----

  ghost function Weights(): Cell -> real { (c: Cell) => c.w }

  lemma {:induction false} RowWeight(pairs: seq<Pair>, i: nat)
    ensures Sum(Row(pairs, i), Weights()) == Degree(pairs, i)
  {
    if pairs != [] {
      var init, p := pairs[..|pairs| - 1], pairs[|pairs| - 1];
      RowWeight(init, i);
      if p.a == i {
        SumSnoc(Row(init, i), Cell(p.b, p.w), Weights());
      } else if p.b == i {
        SumSnoc(Row(init, i), Cell(p.a, p.w), Weights());
      } else {
        assert Row(init, i) + [] == Row(init, i);
      }
    }
  }

  ghost function Energy(u: nat -> real): (nat, Cell) -> real {
    (i: nat, c: Cell) => Times(Times(u(i), u(i)), c.w)
  }

  // 2pq is at most p^2 + q^2, in both signs.
  lemma MeanSquares(w: real, p: real, q: real)
    requires w >= 0.0
    ensures Abs(Times(p, Times(w, q)) + Times(q, Times(w, p))) <= Times(Times(p, p), w) + Times(Times(q, q), w)
  {
    SquareNonNeg(p - q);
    SquareNonNeg(p + q);
    NonNegProduct(w, Times(p - q, p - q));
    NonNegProduct(w, Times(p + q, p + q));
    assert (p - q) * (p - q) * w == p * p * w - 2.0 * (p * w * q) + q * q * w;
    assert (p + q) * (p + q) * w == p * p * w + 2.0 * (p * w * q) + q * q * w;
  }

  lemma NonNegProduct(w: real, s: real)
    requires w >= 0.0 && s >= 0.0
    ensures s * w >= 0.0
  {}

  lemma ScaledSquare(deg: real, r: real, x: real)
    requires InverseRoot(deg, r)
    ensures Times(Times(Times(r, x), Times(r, x)), deg) <= Times(x, x)
  {
    if deg > 0.0 {
      assert r * x * (r * x) * deg == r * r * deg * (x * x);
    }
  }

  // M lies between -I and I: the quadratic form never exceeds the squared norm.
  lemma FormIsBounded(pairs: seq<Pair>, inv: seq<real>, x: seq<real>)
    requires PairsBelow(pairs, |x|) && |inv| == |x| && InverseRoots(pairs, inv)
    ensures Abs(Dot(x, NegP(pairs, inv, x))) <= Dot(x, x)
  {
    var u := Scaled(inv, x);
    hide NegP, InverseRoots, RowTotal, Times, Scaled;
    FormIsPairSum(pairs, inv, x, x);
    forall p | p in pairs ensures Abs(BothEnds(Cross(u, u))(p)) <= BothEnds(Energy(u))(p) {
      MeanSquares(p.w, u(p.a), u(p.b));
    }
    SumAbs(pairs, BothEnds(Cross(u, u)), BothEnds(Energy(u)));
    CellsAreEnds(pairs, |x|, Energy(u));
    forall i: nat | i < |x| ensures RowTotal(pairs, Energy(u))(i) <= DotTerm(x, x)(i) {
      EnergyOfRow(pairs, inv, x, i);
    }
    hide DotTerm, BothEnds;
    SumMono(Upto(|x|), RowTotal(pairs, Energy(u)), DotTerm(x, x));
  }

  lemma EnergyOfRow(pairs: seq<Pair>, inv: seq<real>, x: seq<real>, i: nat)
    requires i < |x| == |inv| && InverseRoots(pairs, inv)
    ensures RowTotal(pairs, Energy(Scaled(inv, x)))(i) <= DotTerm(x, x)(i)
  {
    hide Row, Degree;
    var u := Scaled(inv, x);
    SumScale(Row(pairs, i), Weights(), Times(u(i), u(i)), RowTerm(Energy(u), i));
    RowWeight(pairs, i);
    ScaledSquare(Degree(pairs, i), inv[i], x[i]);
  }

  // Every eigenvalue of M lies in [-1, 1], which is what the Chebyshev expansion needs.
  lemma SpectrumIsBounded(pairs: seq<Pair>, inv: seq<real>, x: seq<real>, lambda: real)
    requires PairsBelow(pairs, |x|) && |inv| == |x| && InverseRoots(pairs, inv)
    requires NegP(pairs, inv, x) == Combine(lambda, x, 0.0, x)
    requires exists i :: 0 <= i < |x| && x[i] != 0.0
    ensures -1.0 <= lambda <= 1.0
  {
    hide NegP, InverseRoots, PairsBelow;
    FormIsBounded(pairs, inv, x);
    DotScales(x, lambda);
    hide Combine, Dot;
    NormIsPositive(x);
    Cancel(lambda, Dot(x, x));
  }

  lemma DotScales(x: seq<real>, lambda: real)
    ensures Dot(x, Combine(lambda, x, 0.0, x)) == lambda * Dot(x, x)
  {
    hide Times;
    var mx := Combine(lambda, x, 0.0, x);
    forall i: nat | i < |x| ensures DotTerm(x, mx)(i) == lambda * DotTerm(x, x)(i) {
      ScaleSquare(lambda, x[i]);
    }
    hide DotTerm, Combine, At;
    SumScale(Upto(|x|), DotTerm(x, x), lambda, DotTerm(x, mx));
  }

  lemma ScaleSquare(l: real, x: real)
    ensures Times(x, Times(l, x) + Times(0.0, x)) == l * Times(x, x)
  {}

  lemma Cancel(l: real, d: real)
    requires d > 0.0 && Abs(l * d) <= d
    ensures -1.0 <= l <= 1.0
  {
    if l > 1.0 {
      MulStrict(1.0, l, d);
    } else if l < -1.0 {
      MulStrict(l, -1.0, d);
    }
  }

  lemma NormIsPositive(x: seq<real>)
    requires exists i :: 0 <= i < |x| && x[i] != 0.0
    ensures Dot(x, x) > 0.0
  {
    var i :| 0 <= i < |x| && x[i] != 0.0;
    var n := |x|;
    forall j: nat ensures OnlyAt(i, Times(x[i], x[i]))(j) <= DotTerm(x, x)(j) {
      SquareNonNeg(At(x, j));
    }
    SumMono(Upto(n), OnlyAt(i, Times(x[i], x[i])), DotTerm(x, x));
    SumOnly(n, i, Times(x[i], x[i]));
    SquareNonNeg(x[i]);
  }

  lemma PositiveTimes(x: real, y: real)
    requires x > 0.0 && y > 0.0
    ensures Times(x, y) > 0.0
  {}

  lemma SquareOfNegation(x: real)
    ensures Times(-x, -x) == Times(x, x)
  {}

  lemma SquareNonNeg(x: real)
    ensures Times(x, x) >= 0.0 && (x != 0.0 ==> Times(x, x) > 0.0)
  {
    hide Times;
    if x > 0.0 {
      PositiveTimes(x, x);
    } else if x < 0.0 {
      PositiveTimes(-x, -x);
      SquareOfNegation(x);
    } else {
      Distribute(0.0, 0.0, x);
    }
  }

  // The code gives 0 to an isolated node.
  lemma IsolatedGoesToZero(pairs: seq<Pair>, inv: seq<real>, x: seq<real>, i: nat)
    requires i < |x| == |inv| && InverseRoots(pairs, inv) && Degree(pairs, i) == 0.0
    ensures NegP(pairs, inv, x)[i] == 0.0
  {
    assert inv[i] == 0.0;
  }

  // ----- the stationary direction -----

  // deg * 1/sqrt(deg): the square root of each degree.
  ghost function RootDegrees(pairs: seq<Pair>, inv: seq<real>): (z: seq<real>)
    ensures |z| == |inv|
  {
    seq(|inv|, (i: nat) => Times(Degree(pairs, i), At(inv, i)))
  }

  lemma {:induction false} NeighbourDegree(pairs: seq<Pair>, n: nat, i: nat, c: Cell)
    requires PairsBelow(pairs, n) && c in Row(pairs, i)
    ensures 0.0 <= c.w <= Degree(pairs, c.col)
  {
    var init, p := pairs[..|pairs| - 1], pairs[|pairs| - 1];
    SumNonNeg(init, DegreeTerm(c.col));
    assert Degree(pairs, c.col) == Degree(init, c.col) + DegreeTerm(c.col)(p);
    if c in Row(init, i) {
      NeighbourDegree(init, n, i, c);
    } else {
      assert c in Entry(p, i);
    }
  }

  lemma UnitFlow(deg: real, r: real, w: real)
    requires InverseRoot(deg, r) && 0.0 <= w <= deg
    ensures Times(w, Times(r, Times(deg, r))) == w
  {
    if deg > 0.0 {
      assert r * (deg * r) == r * r * deg;
    }
  }

  lemma RootDegreesFlow(pairs: seq<Pair>, inv: seq<real>, i: nat)
    requires PairsBelow(pairs, |inv|) && InverseRoots(pairs, inv)
    ensures Flow(pairs, i, Scaled(inv, RootDegrees(pairs, inv))) == Degree(pairs, i)
  {
    var u := Scaled(inv, RootDegrees(pairs, inv));
    RowInRange(pairs, |inv|, i);
    forall c | c in Row(pairs, i) ensures FlowTerm(u)(c) == Weights()(c) {
      NeighbourDegree(pairs, |inv|, i, c);
      UnitFlow(Degree(pairs, c.col), inv[c.col], c.w);
    }
    hide Row, Degree;
    SumCong(Row(pairs, i), FlowTerm(u), Weights());
    RowWeight(pairs, i);
  }

  // The square roots of the degrees are an eigenvector of M with eigenvalue -1: heat does not move there.
  lemma RootDegreesAreStationary(pairs: seq<Pair>, inv: seq<real>)
    requires PairsBelow(pairs, |inv|) && InverseRoots(pairs, inv)
    ensures NegP(pairs, inv, RootDegrees(pairs, inv)) == Negated(RootDegrees(pairs, inv))
  {
    hide InverseRoots, PairsBelow, Flow, Degree, Scaled;
    var z := RootDegrees(pairs, inv);
    forall i: nat | i < |inv| ensures NegP(pairs, inv, z)[i] == -z[i] {
      RootDegreesFlow(pairs, inv, i);
      TimesSwaps(At(inv, i), Degree(pairs, i));
    }
  }

  lemma TimesSwaps(x: real, y: real)
    ensures Times(x, y) == Times(y, x)
  {}

  ghost function Negated(x: seq<real>): (y: seq<real>)
    ensures |y| == |x|
  {
    seq(|x|, (i: nat) => -At(x, i))
  }

  lemma DotNegated(x: seq<real>, y: seq<real>)
    requires |x| == |y|
    ensures Dot(Negated(x), y) == -Dot(x, y)
  {
    forall i: nat | i < |x| ensures DotTerm(Negated(x), y)(i) == -1.0 * DotTerm(x, y)(i) {
      NegatedTimes(At(x, i), At(y, i));
    }
    hide DotTerm, Negated;
    SumScale(Upto(|x|), DotTerm(x, y), -1.0, DotTerm(Negated(x), y));
    MinusOne(Sum(Upto(|x|), DotTerm(x, y)));
  }

  lemma NegatedTimes(x: real, y: real)
    ensures Times(-x, y) == -1.0 * Times(x, y)
  {}

  lemma DotCombines(z: seq<real>, a: real, x: seq<real>, b: real, y: seq<real>)
    requires |x| == |y| == |z|
    ensures Dot(z, Combine(a, x, b, y)) == a * Dot(z, x) + b * Dot(z, y)
  {
    var r := Combine(a, x, b, y);
    forall i: nat | i < |z| ensures DotTerm(z, r)(i) == a * DotTerm(z, x)(i) + b * DotTerm(z, y)(i) {
      Spread(At(z, i), a, At(x, i), b, At(y, i));
    }
    hide DotTerm, Combine;
    SumLinear(Upto(|z|), DotTerm(z, x), DotTerm(z, y), a, b, DotTerm(z, r));
  }

  lemma Spread(z: real, a: real, x: real, b: real, y: real)
    ensures Times(z, Times(a, x) + Times(b, y)) == a * Times(z, x) + b * Times(z, y)
  {}

  // ----- the Chebyshev vectors -----

  // T_k(M) s.
  ghost function Cheb(pairs: seq<Pair>, inv: seq<real>, s: seq<real>, k: nat): (v: seq<real>)
    ensures |v| == |s|
  {
    if k == 0 then s
    else if k == 1 then NegP(pairs, inv, s)
    else Combine(2.0, NegP(pairs, inv, Cheb(pairs, inv, s, k - 1)), -1.0, Cheb(pairs, inv, s, k - 2))
  }

  // T_k at a number.
  function T(k: nat, l: real): real {
    if k == 0 then 1.0 else if k == 1 then l else Times(2.0, Times(l, T(k - 1, l))) - T(k - 2, l)
  }

  // ----- linearity -----

  lemma FlowIsLinear(pairs: seq<Pair>, i: nat, u: nat -> real, v: nat -> real, a: real, b: real, t: nat -> real)
    requires forall j: nat :: t(j) == a * u(j) + b * v(j)
    ensures Flow(pairs, i, t) == a * Flow(pairs, i, u) + b * Flow(pairs, i, v)
  {
    hide Row;
    forall c | c in Row(pairs, i) ensures FlowTerm(t)(c) == a * FlowTerm(u)(c) + b * FlowTerm(v)(c) {
      SpreadWeight(c.w, a, u(c.col), b, v(c.col));
    }
    hide FlowTerm;
    SumLinear(Row(pairs, i), FlowTerm(u), FlowTerm(v), a, b, FlowTerm(t));
  }

  lemma SpreadWeight(w: real, a: real, p: real, b: real, q: real)
    ensures Times(w, a * p + b * q) == a * Times(w, p) + b * Times(w, q)
  {}

  lemma OutputIsLinear(r: real, a: real, f: real, b: real, g: real)
    ensures -Times(r, a * f + b * g) == Times(a, -Times(r, f)) + Times(b, -Times(r, g))
  {}

  lemma ScaledIsLinear(inv: seq<real>, a: real, x: seq<real>, b: real, y: seq<real>)
    requires |x| == |y|
    ensures forall j: nat :: Scaled(inv, Combine(a, x, b, y))(j) == a * Scaled(inv, x)(j) + b * Scaled(inv, y)(j)
  {
    hide Times;
    forall j: nat ensures Scaled(inv, Combine(a, x, b, y))(j) == a * Scaled(inv, x)(j) + b * Scaled(inv, y)(j) {
      Spread(At(inv, j), a, At(x, j), b, At(y, j));
      ZeroCombination(a, b);
      assert At(Combine(a, x, b, y), j) == Times(a, At(x, j)) + Times(b, At(y, j));
    }
  }

  lemma ZeroCombination(a: real, b: real)
    ensures Times(a, 0.0) + Times(b, 0.0) == 0.0
  {}

  lemma NegPIsLinear(pairs: seq<Pair>, inv: seq<real>, a: real, x: seq<real>, b: real, y: seq<real>)
    requires |x| == |y|
    ensures NegP(pairs, inv, Combine(a, x, b, y)) == Combine(a, NegP(pairs, inv, x), b, NegP(pairs, inv, y))
  {
    var r := Combine(a, x, b, y);
    ScaledIsLinear(inv, a, x, b, y);
    hide Flow, Scaled, Times;
    var left, right := NegP(pairs, inv, r), Combine(a, NegP(pairs, inv, x), b, NegP(pairs, inv, y));
    forall i: nat | i < |x| ensures left[i] == right[i] {
      FlowIsLinear(pairs, i, Scaled(inv, x), Scaled(inv, y), a, b, Scaled(inv, r));
      OutputIsLinear(At(inv, i), a, Flow(pairs, i, Scaled(inv, x)), b, Flow(pairs, i, Scaled(inv, y)));
    }
  }

  lemma Interchange(a: real, b: real, c: real, d: real, p: real, q: real, r: real, s: real)
    ensures Times(c, Times(a, p) + Times(b, q)) + Times(d, Times(a, r) + Times(b, s))
         == Times(a, Times(c, p) + Times(d, r)) + Times(b, Times(c, q) + Times(d, s))
  {}

  lemma CombineInterchange(a: real, b: real, c: real, d: real, p: seq<real>, q: seq<real>, r: seq<real>, s: seq<real>)
    requires |p| == |q| == |r| == |s|
    ensures Combine(c, Combine(a, p, b, q), d, Combine(a, r, b, s))
      == Combine(a, Combine(c, p, d, r), b, Combine(c, q, d, s))
  {
    hide Times;
    forall i: nat | i < |p|
      ensures Combine(c, Combine(a, p, b, q), d, Combine(a, r, b, s))[i]
        == Combine(a, Combine(c, p, d, r), b, Combine(c, q, d, s))[i]
    {
      Interchange(a, b, c, d, p[i], q[i], r[i], s[i]);
    }
  }

  // Every Chebyshev vector is linear in the seeds.
  lemma {:induction false} ChebIsLinear(pairs: seq<Pair>, inv: seq<real>, a: real, x: seq<real>, b: real, y: seq<real>,
                                        k: nat)
    requires |x| == |y|
    ensures Cheb(pairs, inv, Combine(a, x, b, y), k) == Combine(a, Cheb(pairs, inv, x, k), b, Cheb(pairs, inv, y, k))
  {
    hide NegP, Combine;
    if k == 1 {
      NegPIsLinear(pairs, inv, a, x, b, y);
    } else if k > 1 {
      ChebIsLinear(pairs, inv, a, x, b, y, k - 1);
      ChebIsLinear(pairs, inv, a, x, b, y, k - 2);
      var px, py := Cheb(pairs, inv, x, k - 1), Cheb(pairs, inv, y, k - 1);
      NegPIsLinear(pairs, inv, a, px, b, py);
      CombineInterchange(a, b, 2.0, -1.0, NegP(pairs, inv, px), NegP(pairs, inv, py), Cheb(pairs, inv, x, k - 2),
                         Cheb(pairs, inv, y, k - 2));
    }
  }

  // ----- conservation -----

  // The component along the stationary direction only changes sign from one vector to the next.
  lemma {:induction false} ChebKeepsStationaryPart(pairs: seq<Pair>, inv: seq<real>, s: seq<real>, k: nat)
    requires PairsBelow(pairs, |s|) && |inv| == |s| && InverseRoots(pairs, inv)
    ensures Dot(RootDegrees(pairs, inv), Cheb(pairs, inv, s, k))
         == if k % 2 == 0 then Dot(RootDegrees(pairs, inv), s) else -Dot(RootDegrees(pairs, inv), s)
  {
    hide NegP, Combine, Dot, RootDegrees, InverseRoots, PairsBelow;
    var z := RootDegrees(pairs, inv);
    if k == 1 {
      StationaryStep(pairs, inv, s);
    } else if k > 1 {
      ChebKeepsStationaryPart(pairs, inv, s, k - 1);
      ChebKeepsStationaryPart(pairs, inv, s, k - 2);
      StationaryStep(pairs, inv, Cheb(pairs, inv, s, k - 1));
      DotCombines(z, 2.0, NegP(pairs, inv, Cheb(pairs, inv, s, k - 1)), -1.0, Cheb(pairs, inv, s, k - 2));
    }
  }

  lemma StationaryStep(pairs: seq<Pair>, inv: seq<real>, x: seq<real>)
    requires PairsBelow(pairs, |x|) && |inv| == |x| && InverseRoots(pairs, inv)
    ensures Dot(RootDegrees(pairs, inv), NegP(pairs, inv, x)) == -Dot(RootDegrees(pairs, inv), x)
  {
    hide NegP, Dot, RootDegrees, InverseRoots, PairsBelow;
    var z := RootDegrees(pairs, inv);
    SelfAdjoint(pairs, inv, z, x);
    RootDegreesAreStationary(pairs, inv);
    DotNegated(z, x);
  }

  // ----- eigenvectors -----

  ghost predicate IsEigen(pairs: seq<Pair>, inv: seq<real>, x: seq<real>, l: real) {
    NegP(pairs, inv, x) == Combine(l, x, 0.0, x)
  }

  // The vectors are the Chebyshev polynomials of M: on an eigenvector they multiply by T_k of its eigenvalue.
  lemma {:induction false} ChebOnEigenvector(pairs: seq<Pair>, inv: seq<real>, x: seq<real>, l: real, k: nat)
    requires IsEigen(pairs, inv, x, l)
    ensures Cheb(pairs, inv, x, k) == Combine(T(k, l), x, 0.0, x)
  {
    hide NegP, Combine;
    if k == 0 {
      CombineOne(x);
    } else if k > 1 {
      ChebOnEigenvector(pairs, inv, x, l, k - 1);
      ChebOnEigenvector(pairs, inv, x, l, k - 2);
      NegPIsLinear(pairs, inv, T(k - 1, l), x, 0.0, x);
      CombineRecurrence(x, l, T(k - 1, l), T(k - 2, l));
    }
  }

  lemma CombineOne(x: seq<real>)
    ensures Combine(1.0, x, 0.0, x) == x
  {}

  lemma CombineRecurrence(x: seq<real>, l: real, t: real, q: real)
    ensures var lx := Combine(l, x, 0.0, x);
      Combine(2.0, Combine(t, lx, 0.0, lx), -1.0, Combine(q, x, 0.0, x))
        == Combine(Times(2.0, Times(l, t)) - q, x, 0.0, x)
  {
    hide Times;
    var lx := Combine(l, x, 0.0, x);
    var left, right := Combine(2.0, Combine(t, lx, 0.0, lx), -1.0, Combine(q, x, 0.0, x)),
        Combine(Times(2.0, Times(l, t)) - q, x, 0.0, x);
    forall i: nat | i < |x| ensures left[i] == right[i] {
      Recurrence(l, t, q, x[i]);
    }
  }

  lemma Recurrence(l: real, t: real, q: real, x: real)
    ensures var lx := Times(l, x) + Times(0.0, x);
      Times(2.0, Times(t, lx) + Times(0.0, lx)) + Times(-1.0, Times(q, x) + Times(0.0, x))
        == Times(Times(2.0, Times(l, t)) - q, x) + Times(0.0, x)
  {}

  // ----- stability -----

  ghost function Conserved(l: real, t: real, q: real): real {
    t * t - 2.0 * l * t * q + q * q
  }

  lemma ConservedStep(l: real, t: real, q: real)
    ensures Conserved(l, Times(2.0, Times(l, t)) - q, t) == Conserved(l, t, q)
  {
    var n := 2.0 * (l * t) - q;
    assert n * n == 4.0 * (l * t) * (l * t) - 4.0 * (l * t) * q + q * q;
    assert 2.0 * l * n * t == 4.0 * (l * t) * (l * t) - 2.0 * l * t * q;
    assert Times(2.0, Times(l, t)) - q == n;
    assert Conserved(l, n, t) == n * n - 2.0 * l * n * t + t * t;
  }

  lemma {:induction false} Invariant(k: nat, l: real)
    ensures Conserved(l, T(k + 1, l), T(k, l)) == 1.0 - l * l
  {
    if k > 0 {
      Invariant(k - 1, l);
      ConservedStep(l, T(k, l), T(k - 1, l));
    }
  }

  lemma BoundFromInvariant(l: real, t: real, q: real)
    requires Conserved(l, t, q) == 1.0 - l * l && -1.0 < l < 1.0
    ensures q * q <= 1.0
  {
    var d := t - l * q;
    assert d * d == t * t - 2.0 * l * t * q + l * q * (l * q);
    assert l * q * (l * q) == l * l * (q * q);
    SquareNonNeg(d);
    var gap := 1.0 - l * l;
    assert gap == (1.0 - l) * (1.0 + l);
    NonNegProduct(1.0 + l, 1.0 - l);
    MulStrict(0.0, 1.0 - l, 1.0 + l);
    assert gap * (q * q) == q * q - l * l * (q * q);
    if q * q > 1.0 {
      MulStrict(1.0, q * q, gap);
    }
  }

  lemma {:induction false} EndsOfTheSpectrum(k: nat)
    ensures T(k, 1.0) == 1.0 && T(k, -1.0) == if k % 2 == 0 then 1.0 else -1.0
  {
    if k > 1 {
      EndsOfTheSpectrum(k - 1);
      EndsOfTheSpectrum(k - 2);
    }
  }

  lemma LargeSquare(q: real)
    requires q > 1.0
    ensures q * q > 1.0 && -q * -q > 1.0
  {
    MulStrict(1.0, q, q);
    assert -q * -q == q * q;
  }

  lemma UnitFromSquare(q: real)
    requires q * q <= 1.0
    ensures -1.0 <= q <= 1.0
  {
    if q > 1.0 {
      LargeSquare(q);
    } else if q < -1.0 {
      LargeSquare(-q);
    }
  }

  lemma PolynomialIsBounded(k: nat, l: real)
    requires -1.0 <= l <= 1.0
    ensures -1.0 <= T(k, l) <= 1.0
  {
    if l == 1.0 || l == -1.0 {
      EndsOfTheSpectrum(k);
    } else {
      Invariant(k, l);
      BoundFromInvariant(l, T(k + 1, l), T(k, l));
      UnitFromSquare(T(k, l));
    }
  }

  // However many terms are taken, no eigenvector of the graph is ever amplified.
  lemma VectorsAreStable(pairs: seq<Pair>, inv: seq<real>, x: seq<real>, l: real, k: nat)
    requires PairsBelow(pairs, |x|) && |inv| == |x| && InverseRoots(pairs, inv)
    requires IsEigen(pairs, inv, x, l) && exists i :: 0 <= i < |x| && x[i] != 0.0
    ensures -1.0 <= T(k, l) <= 1.0 && Cheb(pairs, inv, x, k) == Combine(T(k, l), x, 0.0, x)
  {
    SpectrumIsBounded(pairs, inv, x, l);
    PolynomialIsBounded(k, l);
    ChebOnEigenvector(pairs, inv, x, l, k);
  }

  // ----- the dense matrix -----

  // The entry of the dense matrix in row i and column j.
  ghost function DenseTerm(i: nat, j: nat): Pair -> real {
    (p: Pair) => if (p.a == i && p.b == j) || (p.b == i && p.a == j) then p.w else 0.0
  }

  ghost function Dense(pairs: seq<Pair>, i: nat, j: nat): real {
    Sum(pairs, DenseTerm(i, j))
  }

  ghost function DenseProduct(pairs: seq<Pair>, i: nat, u: nat -> real): nat -> real {
    (j: nat) => Times(Dense(pairs, i, j), u(j))
  }

  // Walking the stored row is multiplying by the whole row of the dense matrix.
  lemma {:induction false} RowIsDense(pairs: seq<Pair>, n: nat, i: nat, u: nat -> real)
    requires PairsBelow(pairs, n)
    ensures Flow(pairs, i, u) == Sum(Upto(n), DenseProduct(pairs, i, u))
  {
    if pairs == [] {
      SumZero(Upto(n), DenseProduct(pairs, i, u));
    } else {
      var init, p := pairs[..|pairs| - 1], pairs[|pairs| - 1];
      assert pairs == init + [p];
      RowIsDense(init, n, i, u);
      var other := if p.a == i then p.b else p.a;
      var touches := p.a == i || p.b == i;
      var only := OnlyAt(other, if touches then Times(p.w, u(other)) else 0.0);
      forall j: nat ensures DenseProduct(pairs, i, u)(j) == DenseProduct(init, i, u)(j) + only(j) {
        DenseStep(init, p, i, j, u);
      }
      SumOnly(n, other, only(other));
      FlowStep(init, p, i, u);
      hide DenseProduct, Flow, OnlyAt;
      SumAdd(Upto(n), DenseProduct(init, i, u), only, DenseProduct(pairs, i, u));
    }
  }

  lemma DenseStep(init: seq<Pair>, p: Pair, i: nat, j: nat, u: nat -> real)
    requires p.a != p.b
    ensures var other := if p.a == i then p.b else p.a;
      DenseProduct(init + [p], i, u)(j) == DenseProduct(init, i, u)(j)
        + OnlyAt(other, if p.a == i || p.b == i then Times(p.w, u(other)) else 0.0)(j)
  {
    SumSnoc(init, p, DenseTerm(i, j));
    Distribute(Dense(init, i, j), DenseTerm(i, j)(p), u(j));
  }

  lemma Distribute(x: real, y: real, z: real)
    ensures Times(x + y, z) == Times(x, z) + Times(y, z)
    ensures Times(0.0, z) == 0.0
  {}

  lemma FlowStep(init: seq<Pair>, p: Pair, i: nat, u: nat -> real)
    requires p.a != p.b
    ensures var other := if p.a == i then p.b else p.a;
      Flow(init + [p], i, u) == Flow(init, i, u) + if p.a == i || p.b == i then Times(p.w, u(other)) else 0.0
  {
    assert (init + [p])[..|init|] == init;
    if p.a == i {
      SumSnoc(Row(init, i), Cell(p.b, p.w), FlowTerm(u));
    } else if p.b == i {
      SumSnoc(Row(init, i), Cell(p.a, p.w), FlowTerm(u));
    } else {
      assert Row(init, i) + [] == Row(init, i);
    }
  }

  // The dense matrix of a graph holds the conductance of each joined pair, on both sides of the diagonal.
  lemma DenseIsConductance(pairs: seq<Pair>, a: nat, b: nat, w: real)
    requires DistinctPairs(pairs) && (forall p :: p in pairs ==> p.a < p.b) && Pair(a, b, w) in pairs
    ensures Dense(pairs, a, b) == w == Dense(pairs, b, a)
  {
    SumSingle(pairs, Pair(a, b, w), DenseTerm(a, b));
    SumSingle(pairs, Pair(a, b, w), DenseTerm(b, a));
  }

  lemma DenseIsZero(pairs: seq<Pair>, i: nat, j: nat)
    requires forall p :: p in pairs ==> !(p.a == i && p.b == j) && !(p.a == j && p.b == i)
    ensures Dense(pairs, i, j) == 0.0
  {
    SumZero(pairs, DenseTerm(i, j));
  }

  // ----- the graph, not the edge list -----

  lemma SameSum(pairs: seq<Pair>, others: seq<Pair>, f: Pair -> real)
    requires DistinctPairs(pairs) && DistinctPairs(others) && forall p :: p in pairs <==> p in others
    ensures Sum(pairs, f) == Sum(others, f)
  {
    SumSameElements(pairs, others, f);
  }

  // Two edge lists of the same undirected graph have the same degrees and the same operator.
  lemma OperatorIsUndirected(keys: seq<Node>, edges: seq<RankEdge>, others: seq<RankEdge>, inv: seq<real>, x: seq<real>)
    requires SameUndirected(edges, others) && |x| == |keys|
    ensures forall i: nat :: Degree(GraphPairs(keys, edges), i) == Degree(GraphPairs(keys, others), i)
    ensures NegP(GraphPairs(keys, edges), inv, x) == NegP(GraphPairs(keys, others), inv, x)
  {
    ConductancesAreUndirected(keys, edges, others);
    GraphPairsAreExact(keys, edges);
    GraphPairsAreExact(keys, others);
    hide *;
    SameOperator(GraphPairs(keys, edges), GraphPairs(keys, others), inv, x);
  }

  lemma SameOperator(pairs: seq<Pair>, same: seq<Pair>, inv: seq<real>, x: seq<real>)
    requires PairsBelow(pairs, |x|) && PairsBelow(same, |x|)
    requires DistinctPairs(pairs) && DistinctPairs(same) && forall p :: p in pairs <==> p in same
    ensures forall i: nat :: Degree(pairs, i) == Degree(same, i)
    ensures NegP(pairs, inv, x) == NegP(same, inv, x)
  {
    hide DistinctPairs, PairsBelow, Flow, Scaled;
    forall i: nat ensures Degree(pairs, i) == Degree(same, i) {
      SameSum(pairs, same, DegreeTerm(i));
    }
    forall i: nat ensures Flow(pairs, i, Scaled(inv, x)) == Flow(same, i, Scaled(inv, x)) {
      SameFlow(pairs, same, |x|, i, Scaled(inv, x));
    }
  }

  lemma SameFlow(pairs: seq<Pair>, same: seq<Pair>, n: nat, i: nat, u: nat -> real)
    requires PairsBelow(pairs, n) && PairsBelow(same, n)
    requires DistinctPairs(pairs) && DistinctPairs(same) && forall p :: p in pairs <==> p in same
    ensures Flow(pairs, i, u) == Flow(same, i, u)
  {
    hide Flow, PairsBelow, DistinctPairs;
    RowIsDense(pairs, n, i, u);
    RowIsDense(same, n, i, u);
    forall j: nat ensures DenseProduct(pairs, i, u)(j) == DenseProduct(same, i, u)(j) {
      SameSum(pairs, same, DenseTerm(i, j));
      assert Dense(pairs, i, j) == Dense(same, i, j);
    }
    hide DenseProduct;
    SumCong(Upto(n), DenseProduct(pairs, i, u), DenseProduct(same, i, u));
  }

  // What ApplyNegP computes with its arrays is self-adjoint, bounded by the norm, and 0 at isolated nodes.
  lemma ComputedOperator(csr: Csr, pairs: seq<Pair>, root: seq<real>, x: seq<real>, y: seq<real>)
    requires IsCsr(csr, pairs) && PairsBelow(pairs, csr.n) && Roots(csr.deg[..], root) && |x| == |y| == csr.n
    ensures var inv := InvOf(csr.deg[..], root);
      && Dot(x, NegP(pairs, inv, y)) == Dot(NegP(pairs, inv, x), y)
      && Abs(Dot(x, NegP(pairs, inv, x))) <= Dot(x, x)
      && (forall i: nat :: i < csr.n && csr.deg[i] == 0.0 ==> NegP(pairs, inv, x)[i] == 0.0)
  {
    hide Laid, Tight, Rows, Degree, NegP, Dot, InverseRoots, PairsBelow;
    var inv := InvOf(csr.deg[..], root);
    InvOfIsInverse(csr, pairs, root);
    SelfAdjoint(pairs, inv, x, y);
    FormIsBounded(pairs, inv, x);
    forall i: nat | i < csr.n && csr.deg[i] == 0.0 ensures NegP(pairs, inv, x)[i] == 0.0 {
      IsolatedGoesToZero(pairs, inv, x, i);
    }
  }

  // An eigenvalue of what it computes with lies in [-1, 1].
  lemma ComputedSpectrum(csr: Csr, pairs: seq<Pair>, root: seq<real>, x: seq<real>, lambda: real)
    requires IsCsr(csr, pairs) && PairsBelow(pairs, csr.n) && Roots(csr.deg[..], root) && |x| == csr.n
    requires IsEigen(pairs, InvOf(csr.deg[..], root), x, lambda) && exists i :: 0 <= i < |x| && x[i] != 0.0
    ensures -1.0 <= lambda <= 1.0
  {
    InvOfIsInverse(csr, pairs, root);
    SpectrumIsBounded(pairs, InvOf(csr.deg[..], root), x, lambda);
  }

  // ----- the loops -----

  method ChebyshevVectors(csr: Csr, ghost pairs: seq<Pair>, root: seq<real>, s: array<real>, K: nat)
    returns (tk: seq<array<real>>)
    requires IsCsr(csr, pairs) && PairsBelow(pairs, csr.n) && s.Length == csr.n && |root| == csr.n
    ensures |tk| == K + 1
    ensures forall k :: 0 <= k <= K ==> fresh(tk[k]) && tk[k][..] == Cheb(pairs, InvOf(csr.deg[..], root), s[..], k)
  {
    hide IsCsr, NegP, Combine, InvOf, PairsBelow;
    ghost var inv := InvOf(csr.deg[..], root);
    var t0 := new real[csr.n](i requires 0 <= i < s.Length reads s => s[i]);
    assert t0[..] == s[..];
    tk := [t0];
    if K >= 1 {
      var t1 := ApplyNegP(csr, pairs, root, t0);
      tk := tk + [t1];
    }
    var k := 2;
    while k <= K
      invariant 2 <= k && |tk| == if K == 0 then 1 else k
      invariant K >= 1 ==> k <= K + 1
      invariant forall j :: 0 <= j < |tk| ==> fresh(tk[j]) && tk[j][..] == Cheb(pairs, inv, s[..], j)
    {
      ghost var prev, p2 := tk[k - 1][..], tk[k - 2][..];
      assert Cheb(pairs, inv, s[..], k) == Combine(2.0, NegP(pairs, inv, prev), -1.0, p2);
      hide Cheb;
      var out := NextVector(csr, pairs, root, tk[k - 1], tk[k - 2]);
      tk := tk + [out];
      k := k + 1;
    }
  }

  // The vector after two others.
  method NextVector(csr: Csr, ghost pairs: seq<Pair>, root: seq<real>, prev: array<real>, p2: array<real>)
    returns (out: array<real>)
    requires IsCsr(csr, pairs) && PairsBelow(pairs, csr.n) && prev.Length == p2.Length == csr.n && |root| == csr.n
    ensures fresh(out)
    ensures out[..] == Combine(2.0, NegP(pairs, InvOf(csr.deg[..], root), prev[..]), -1.0, p2[..])
  {
    hide IsCsr, NegP, Combine, InvOf, PairsBelow;
    var mv := ApplyNegP(csr, pairs, root, prev);
    out := Recur(mv, p2);
  }

  // 2 * mv - p2, entry by entry.
  method Recur(mv: array<real>, p2: array<real>) returns (out: array<real>)
    requires mv.Length == p2.Length
    ensures fresh(out) && out[..] == Combine(2.0, mv[..], -1.0, p2[..])
  {
    var n := mv.Length;
    out := new real[n](_ => 0.0);
    for i := 0 to n
      invariant mv[..] == old(mv[..]) && p2[..] == old(p2[..])
      invariant forall j :: 0 <= j < i ==> out[j] == Times(2.0, mv[j]) + Times(-1.0, p2[j])
    {
      out[i] := 2.0 * mv[i] - p2[i];
    }
  }

  // ----- the matrix and the polynomials, told by the edges and by powers -----

  ghost predicate EndsAre(e: RankEdge, x: Node, y: Node) {
    (e.from == x && e.to == y) || (e.from == y && e.to == x)
  }

  lemma BetweenEnds(keys: seq<Node>, e: RankEdge, i: nat, j: nat)
    requires Distinct(keys) && i < |keys| && j < |keys|
    ensures Between(keys, e, i, j) <==> EndsAre(e, keys[i], keys[j])
  {}

  // Its entry at two nodes is the largest weight of an edge with just these ends, and 0 without one or on the diagonal.
  lemma DenseIsLargest(keys: seq<Node>, edges: seq<RankEdge>, i: nat, j: nat)
    requires Distinct(keys) && i < |keys| && j < |keys|
    ensures var d := Dense(GraphPairs(keys, edges), i, j);
      if i == j || !(exists e :: e in edges && EndsAre(e, keys[i], keys[j])) then d == 0.0
      else && d >= 0.0 && (forall e :: e in edges && EndsAre(e, keys[i], keys[j]) ==> e.weight <= d)
           && (d == 0.0 || exists e :: e in edges && EndsAre(e, keys[i], keys[j]) && e.weight == d)
  {
    var pairs := GraphPairs(keys, edges);
    GraphPairsAreExact(keys, edges);
    PairsAreConductances(keys, edges);
    hide GraphPairs, MaxConductance, Dense;
    forall e ensures Between(keys, e, i, j) <==> EndsAre(e, keys[i], keys[j]) {
      BetweenEnds(keys, e, i, j);
    }
    var a, b := if i < j then i else j, if i < j then j else i;
    if p :| p in pairs && p.a == a && p.b == b {
      DenseIsConductance(pairs, a, b, p.w);
      assert Pair(a, b, p.w) in pairs;
      ConductanceTurns(keys, edges, i, j, p.w);
    } else {
      DenseIsZero(pairs, i, j);
      NoConductance(keys, edges, a, b);
      assert forall e :: Between(keys, e, a, b) <==> Between(keys, e, i, j);
      assert forall e :: i != j && e in edges ==> !EndsAre(e, keys[i], keys[j]);
    }
  }

  // Without a pair there is no edge.
  lemma NoConductance(keys: seq<Node>, edges: seq<RankEdge>, a: nat, b: nat)
    requires forall p :: p in GraphPairs(keys, edges) ==> !(p.a == a && p.b == b)
    ensures a < b ==> forall e :: e in edges ==> !Between(keys, e, a, b)
  {
    var best := BestPairs(keys, edges);
    BestFacts(keys, edges);
    SortFacts(best);
    assert !HasPair(best, a, b);
    hide Joins, Between, BestPairs, HasPair;
    forall e | a < b && e in edges ensures !Between(keys, e, a, b) {
      JoinsBetween(keys, e, a, b);
    }
  }

  // The operator, entry by entry.
  lemma OperatorIsDense(pairs: seq<Pair>, inv: seq<real>, x: seq<real>, i: nat)
    requires PairsBelow(pairs, |x|) && i < |x| == |inv|
    ensures NegP(pairs, inv, x)[i]
         == -Times(inv[i], Sum(Upto(|x|), (j: nat) => Times(Dense(pairs, i, j), Times(At(inv, j), At(x, j)))))
  {
    var u, term := Scaled(inv, x), (j: nat) => Times(Dense(pairs, i, j), Times(At(inv, j), At(x, j)));
    RowIsDense(pairs, |x|, i, u);
    hide Dense, Flow, Times;
    SumCong(Upto(|x|), DenseProduct(pairs, i, u), term);
  }

  function Mean(x: real, y: real): real { (x + y) / 2.0 }

  // At the mean of a number and its inverse, T_k is the mean of their k-th powers.
  lemma {:induction false} PolynomialIsPowers(k: nat, z: real, y: real)
    requires Times(z, y) == 1.0
    ensures T(k, Mean(z, y)) == Mean(Pow(z, k), Pow(y, k))
  {
    hide Times, Mean;
    FirstPolynomials(z, y);
    if k > 1 {
      PolynomialIsPowers(k - 1, z, y);
      PolynomialIsPowers(k - 2, z, y);
      PolynomialStep(k, Mean(z, y));
      PowTwice(z, k);
      PowTwice(y, k);
      hide T, Pow;
      PowersStep(z, y, Pow(z, k - 2), Pow(y, k - 2));
    }
  }

  lemma FirstPolynomials(z: real, y: real)
    ensures T(0, Mean(z, y)) == Mean(Pow(z, 0), Pow(y, 0))
    ensures T(1, Mean(z, y)) == Mean(Pow(z, 1), Pow(y, 1))
  {}

  lemma PolynomialStep(k: nat, l: real)
    requires k > 1
    ensures T(k, l) == Times(2.0, Times(l, T(k - 1, l))) - T(k - 2, l)
  {}

  lemma PowTwice(b: real, k: nat)
    requires k > 1
    ensures Pow(b, k - 1) == Times(b, Pow(b, k - 2)) && Pow(b, k) == Times(b, Times(b, Pow(b, k - 2)))
  {}

  lemma PowersStep(z: real, y: real, p: real, q: real)
    requires Times(z, y) == 1.0
    ensures Times(2.0, Times(Mean(z, y), Mean(Times(z, p), Times(y, q)))) - Mean(p, q)
         == Mean(Times(z, Times(z, p)), Times(y, Times(y, q)))
  {
    assert z * (y * q) == q && y * (z * p) == p;
  }
}
