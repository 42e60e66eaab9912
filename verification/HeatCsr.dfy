// The compressed-row form of the conductance graph (src/codemap/heat.ts).
module HeatCsr {
  import opened Sums
  import opened PageRank
  import opened HeatPairs

  // One stored entry of a row.
  datatype Cell = Cell(col: nat, w: real)

  // ----- rows -----

  // What a pair adds to a row.
  function Entry(p: Pair, i: nat): seq<Cell> {
    if p.a == i then [Cell(p.b, p.w)] else if p.b == i then [Cell(p.a, p.w)] else []
  }

  // The entries of a row, in the order of the pairs.
  function Row(pairs: seq<Pair>, i: nat): seq<Cell> {
    if pairs == [] then [] else Row(pairs[..|pairs| - 1], i) + Entry(pairs[|pairs| - 1], i)
  }

  ghost function DegreeTerm(i: nat): Pair -> real {
    (p: Pair) => if p.a == i || p.b == i then p.w else 0.0
  }

  ghost function Degree(pairs: seq<Pair>, i: nat): real {
    Sum(pairs, DegreeTerm(i))
  }

  lemma RowStep(pairs: seq<Pair>, k: nat, i: nat)
    requires k < |pairs|
    ensures Row(pairs[..k + 1], i) == Row(pairs[..k], i) + Entry(pairs[k], i)
  {
    assert pairs[..k + 1][..k] == pairs[..k];
  }

  lemma {:induction false} RowPrefix(pairs: seq<Pair>, k: nat, i: nat)
    requires k <= |pairs|
    ensures |Row(pairs[..k], i)| <= |Row(pairs, i)|
    decreases |pairs| - k
  {
    if k == |pairs| {
      assert pairs[..k] == pairs;
    } else {
      RowPrefix(pairs, k + 1, i);
      RowStep(pairs, k, i);
    }
  }

  lemma {:induction false} RowInRange(pairs: seq<Pair>, n: nat, i: nat)
    requires PairsBelow(pairs, n)
    ensures forall c :: c in Row(pairs, i) ==> c.col < n && c.col != i && c.w >= 0.0
  {
    if pairs != [] {
      RowInRange(pairs[..|pairs| - 1], n, i);
    }
  }

  // ----- the arrays -----

  // The slots from start on hold the row.
  ghost predicate Holds(row: seq<Cell>, start: nat, col: seq<nat>, w: seq<real>) {
    && start + |row| <= |col| && |col| == |w|
    && forall t :: 0 <= t < |row| ==> col[start + t] == row[t].col && w[start + t] == row[t].w
  }

  // Rows are laid out one after the other: row i in the slots from starts[i] to starts[i + 1].
  ghost predicate Laid(rows: seq<seq<Cell>>, starts: seq<nat>, col: seq<nat>, w: seq<real>) {
    && |starts| == |rows| + 1 && |col| == |w| == starts[|rows|]
    && (forall i, j :: 0 <= i < j < |starts| ==> starts[i] <= starts[j])
    && (forall i :: 0 <= i < |rows| ==> starts[i] + |rows[i]| <= starts[i + 1])
    && (forall i :: 0 <= i < |rows| ==> Holds(rows[i], starts[i], col, w))
  }

  // The rows partition the slots: each starts where the one before it ends, and the last ends the arrays.
  ghost predicate Tight(rows: seq<seq<Cell>>, starts: seq<nat>) {
    && |starts| == |rows| + 1 && starts[0] == 0
    && forall i :: 0 <= i < |rows| ==> starts[i + 1] == starts[i] + |rows[i]|
  }

  ghost function Rows(pairs: seq<Pair>, n: nat): seq<seq<Cell>> {
    seq(n, (i: nat) => Row(pairs, i))
  }

  datatype Csr = Csr(n: nat, rowPtr: array<nat>, col: array<nat>, w: array<real>, deg: array<real>)

  ghost predicate IsCsr(csr: Csr, pairs: seq<Pair>)
    reads csr.rowPtr, csr.col, csr.w, csr.deg
  {
    && csr.rowPtr.Length == csr.n + 1 && csr.deg.Length == csr.n
    && Laid(Rows(pairs, csr.n), csr.rowPtr[..], csr.col[..], csr.w[..])
    && Tight(Rows(pairs, csr.n), csr.rowPtr[..])
    && forall i :: 0 <= i < csr.n ==> csr.deg[i] == Degree(pairs, i)
  }

  // Writing one more cell behind row i leaves the other rows alone.
  lemma LaidGrows(rows: seq<seq<Cell>>, starts: seq<nat>, col: seq<nat>, w: seq<real>, i: nat, cell: Cell)
    requires Laid(rows, starts, col, w) && i < |rows| && starts[i] + |rows[i]| < starts[i + 1]
    ensures starts[i + 1] <= |col|
    ensures var at := starts[i] + |rows[i]|;
      Laid(rows[i := rows[i] + [cell]], starts, col[at := cell.col], w[at := cell.w])
  {
    hide Holds;
    var at := starts[i] + |rows[i]|;
    forall j | 0 <= j < |rows|
      ensures Holds(rows[i := rows[i] + [cell]][j], starts[j], col[at := cell.col], w[at := cell.w])
    {
      if j == i {
        HoldsMore(rows[i], starts[i], col, w, cell);
      } else {
        assert j < i ==> starts[j + 1] <= starts[i];
        assert i < j ==> starts[i + 1] <= starts[j];
        HoldsStill(rows[j], starts[j], col, w, at, cell);
      }
    }
  }

  lemma HoldsMore(row: seq<Cell>, start: nat, col: seq<nat>, w: seq<real>, cell: Cell)
    requires Holds(row, start, col, w) && start + |row| < |col|
    ensures Holds(row + [cell], start, col[start + |row| := cell.col], w[start + |row| := cell.w])
  {}

  lemma HoldsStill(row: seq<Cell>, start: nat, col: seq<nat>, w: seq<real>, at: nat, cell: Cell)
    requires Holds(row, start, col, w) && at < |col| && (at < start || start + |row| <= at)
    ensures |col| == |w| && Holds(row, start, col[at := cell.col], w[at := cell.w])
  {}

  // ----- building -----

  method RowCounts(pairs: seq<Pair>, n: nat) returns (counts: array<nat>)
    requires PairsBelow(pairs, n)
    ensures fresh(counts) && counts.Length == n
    ensures forall i :: 0 <= i < n ==> counts[i] == |Row(pairs, i)|
  {
    counts := new nat[n](_ => 0);
    for k := 0 to |pairs|
      invariant forall i :: 0 <= i < n ==> counts[i] == |Row(pairs[..k], i)|
    {
      hide Row;
      var p := pairs[k];
      forall i: nat | i < n ensures Row(pairs[..k + 1], i) == Row(pairs[..k], i) + Entry(p, i) {
        RowStep(pairs, k, i);
      }
      counts[p.a] := counts[p.a] + 1;
      counts[p.b] := counts[p.b] + 1;
    }
    assert pairs[..|pairs|] == pairs;
  }

  method RowPointers(ghost rows: seq<seq<Cell>>, counts: array<nat>) returns (rowPtr: array<nat>)
    requires counts.Length == |rows| && forall i :: 0 <= i < |rows| ==> counts[i] == |rows[i]|
    ensures fresh(rowPtr) && Tight(rows, rowPtr[..])
  {
    var n := counts.Length;
    rowPtr := new nat[n + 1](_ => 0);
    for i := 0 to n
      invariant rowPtr[0] == 0
      invariant forall j :: 0 <= j < i ==> rowPtr[j + 1] == rowPtr[j] + |rows[j]|
    {
      rowPtr[i + 1] := rowPtr[i] + counts[i];
    }
  }

  lemma {:induction false} TightMono(rows: seq<seq<Cell>>, starts: seq<nat>, i: nat, j: nat)
    requires Tight(rows, starts) && i <= j < |starts|
    ensures starts[i] <= starts[j]
  {
    if i < j {
      TightMono(rows, starts, i, j - 1);
      assert starts[j - 1 + 1] == starts[j - 1] + |rows[j - 1]|;
    }
  }

  lemma EmptyIsLaid(rows: seq<seq<Cell>>, starts: seq<nat>, col: seq<nat>, w: seq<real>)
    requires Tight(rows, starts) && |col| == |w| == starts[|rows|]
    ensures Laid(seq(|rows|, (i: nat) => []), starts, col, w)
  {
    forall i, j | 0 <= i < j < |starts| ensures starts[i] <= starts[j] {
      TightMono(rows, starts, i, j);
    }
  }

  // Put a cell where the cursor of its row points.
  method Place(ghost rows: seq<seq<Cell>>, rowPtr: array<nat>, i: nat, cell: Cell, col: array<nat>, w: array<real>,
               cursor: array<nat>)
    requires cursor.Length == |rows| && i < |rows| && cursor != rowPtr && cursor != col && rowPtr != col
    requires Laid(rows, rowPtr[..], col[..], w[..]) && rowPtr[i] + |rows[i]| < rowPtr[i + 1]
    requires forall j :: 0 <= j < |rows| ==> cursor[j] == rowPtr[j] + |rows[j]|
    modifies col, w, cursor
    ensures Laid(rows[i := rows[i] + [cell]], rowPtr[..], col[..], w[..])
    ensures forall j :: 0 <= j < |rows| ==> cursor[j] == rowPtr[j] + |rows[i := rows[i] + [cell]][j]|
  {
    hide Holds;
    LaidGrows(rows, rowPtr[..], col[..], w[..], i, cell);
    col[cursor[i]] := cell.col;
    w[cursor[i]] := cell.w;
    cursor[i] := cursor[i] + 1;
  }

  // The rows after one more pair: two of them grow by one cell.
  lemma RowsStep(pairs: seq<Pair>, k: nat, n: nat)
    requires k < |pairs| && PairsBelow(pairs, n)
    ensures var p, rows := pairs[k], Rows(pairs[..k], n);
      && Rows(pairs[..k + 1], n) == rows[p.a := rows[p.a] + [Cell(p.b, p.w)]][p.b := rows[p.b] + [Cell(p.a, p.w)]]
      && |rows[p.a]| < |Row(pairs, p.a)| && |rows[p.b]| < |Row(pairs, p.b)|
  {
    hide Row;
    var p := pairs[k];
    forall i: nat | i < n ensures Row(pairs[..k + 1], i) == Row(pairs[..k], i) + Entry(p, i) {
      RowStep(pairs, k, i);
    }
    RowPrefix(pairs, k + 1, p.a);
    RowPrefix(pairs, k + 1, p.b);
    var rows := Rows(pairs[..k], n);
    var next := rows[p.a := rows[p.a] + [Cell(p.b, p.w)]][p.b := rows[p.b] + [Cell(p.a, p.w)]];
    forall i: nat | i < n ensures Rows(pairs[..k + 1], n)[i] == next[i] {
      assert Row(pairs[..k], i) + [] == Row(pairs[..k], i);
    }
  }

  method FillRows(pairs: seq<Pair>, n: nat, rowPtr: array<nat>) returns (col: array<nat>, w: array<real>)
    requires PairsBelow(pairs, n) && Tight(Rows(pairs, n), rowPtr[..])
    ensures fresh(col) && fresh(w)
    ensures Laid(Rows(pairs, n), rowPtr[..], col[..], w[..])
  {
    hide Laid;
    col := new nat[rowPtr[n]](_ => 0);
    w := new real[rowPtr[n]](_ => 0.0);
    var cursor := new nat[n](_ => 0);
    for i := 0 to n
      invariant forall j :: 0 <= j < i ==> cursor[j] == rowPtr[j]
    {
      cursor[i] := rowPtr[i];
    }
    EmptyIsLaid(Rows(pairs, n), rowPtr[..], col[..], w[..]);
    assert Rows(pairs[..0], n) == seq(n, (i: nat) => []);
    for k := 0 to |pairs|
      invariant rowPtr[..] == old(rowPtr[..])
      invariant Laid(Rows(pairs[..k], n), rowPtr[..], col[..], w[..])
      invariant forall j :: 0 <= j < n ==> cursor[j] == rowPtr[j] + |Rows(pairs[..k], n)[j]|
    {
      hide Row;
      var p := pairs[k];
      RowsStep(pairs, k, n);
      ghost var rows := Rows(pairs[..k], n);
      assert rowPtr[p.a + 1] == rowPtr[p.a] + |Rows(pairs, n)[p.a]|;
      assert rowPtr[p.b + 1] == rowPtr[p.b] + |Rows(pairs, n)[p.b]|;
      Place(rows, rowPtr, p.a, Cell(p.b, p.w), col, w, cursor);
      Place(rows[p.a := rows[p.a] + [Cell(p.b, p.w)]], rowPtr, p.b, Cell(p.a, p.w), col, w, cursor);
    }
    assert pairs[..|pairs|] == pairs;
  }

  method Degrees(pairs: seq<Pair>, n: nat) returns (deg: array<real>)
    requires PairsBelow(pairs, n)
    ensures fresh(deg) && deg.Length == n
    ensures forall i :: 0 <= i < n ==> deg[i] == Degree(pairs, i)
  {
    deg := new real[n](_ => 0.0);
    for k := 0 to |pairs|
      invariant forall i :: 0 <= i < n ==> deg[i] == Degree(pairs[..k], i)
    {
      var p := pairs[k];
      forall i: nat | i < n ensures Degree(pairs[..k + 1], i) == Degree(pairs[..k], i) + DegreeTerm(i)(p) {
        SumStep(pairs, k, DegreeTerm(i));
      }
      hide Degree;
      deg[p.a] := deg[p.a] + p.w;
      deg[p.b] := deg[p.b] + p.w;
    }
    assert pairs[..|pairs|] == pairs;
  }

  method Assemble(pairs: seq<Pair>, n: nat) returns (csr: Csr)
    requires PairsBelow(pairs, n)
    ensures fresh(csr.rowPtr) && fresh(csr.col) && fresh(csr.w) && fresh(csr.deg)
    ensures csr.n == n && IsCsr(csr, pairs)
  {
    hide Laid, Row, Degree, PairsBelow;
    var counts := RowCounts(pairs, n);
    ghost var rows := Rows(pairs, n);
    var rowPtr := RowPointers(rows, counts);
    var col, w := FillRows(pairs, n, rowPtr);
    var deg := Degrees(pairs, n);
    csr := Csr(n, rowPtr, col, w, deg);
  }

  // ----- the arrays and the edges -----

  lemma {:induction false} CellsArePairs(pairs: seq<Pair>, n: nat, i: nat, c: Cell)
    requires PairsBelow(pairs, n)
    ensures c in Row(pairs, i) <==> Pair(i, c.col, c.w) in pairs || Pair(c.col, i, c.w) in pairs
  {
    if pairs != [] {
      var init, p := pairs[..|pairs| - 1], pairs[|pairs| - 1];
      CellsArePairs(init, n, i, c);
      assert forall q :: q in pairs <==> q in init || q == p;
    }
  }

  lemma {:induction false} ColumnsDiffer(pairs: seq<Pair>, n: nat, i: nat)
    requires PairsBelow(pairs, n) && DistinctPairs(pairs)
    ensures forall t, u :: 0 <= t < u < |Row(pairs, i)| ==> Row(pairs, i)[t].col != Row(pairs, i)[u].col
  {
    if pairs != [] {
      var init, p := pairs[..|pairs| - 1], pairs[|pairs| - 1];
      ColumnsDiffer(init, n, i);
      var row := Row(init, i);
      forall t | 0 <= t < |row| && (p.a == i || p.b == i) ensures row[t].col != Entry(p, i)[0].col {
        CellsArePairs(init, n, i, row[t]);
        assert row[t] in row;
      }
    }
  }

  ghost function CellWeight(): Cell -> real {
    (c: Cell) => c.w
  }

  lemma {:induction false} DegreeIsRow(pairs: seq<Pair>, n: nat, i: nat)
    requires PairsBelow(pairs, n)
    ensures Degree(pairs, i) == Sum(Row(pairs, i), CellWeight())
  {
    if pairs != [] {
      var init, p := pairs[..|pairs| - 1], pairs[|pairs| - 1];
      DegreeIsRow(init, n, i);
      assert pairs == init + [p];
      SumSnoc(init, p, DegreeTerm(i));
      if p.a == i || p.b == i {
        SumSnoc(Row(init, i), Entry(p, i)[0], CellWeight());
        assert Row(pairs, i) == Row(init, i) + [Entry(p, i)[0]];
      } else {
        assert Row(pairs, i) == Row(init, i);
      }
    }
  }

  ghost function Same(): real -> real {
    (w: real) => w
  }

  lemma {:induction false} SumOfWeights(row: seq<Cell>, ws: seq<real>)
    requires |row| == |ws| && forall t :: 0 <= t < |row| ==> ws[t] == row[t].w
    ensures Sum(ws, Same()) == Sum(row, CellWeight())
  {
    if row != [] {
      SumOfWeights(row[..|row| - 1], ws[..|ws| - 1]);
    }
  }

  // The slots of row i: a conductance of node i in each, every neighbour once, and their sum as its degree.
  ghost predicate RowIsNode(keys: seq<Node>, edges: seq<RankEdge>, i: nat, cols: seq<nat>, ws: seq<real>, deg: real) {
    && |cols| == |ws| && deg == Sum(ws, Same())
    && (forall t :: 0 <= t < |cols| ==> Conductance(keys, edges, i, cols[t], ws[t]))
    && (forall t, u :: 0 <= t < u < |cols| ==> cols[t] != cols[u])
    && (forall e, j: nat :: e in edges && i != j && Between(keys, e, i, j) ==> j in cols)
  }

  ghost predicate RowAt(csr: Csr, keys: seq<Node>, edges: seq<RankEdge>, i: nat)
    reads csr.rowPtr, csr.col, csr.w, csr.deg
    requires i < csr.deg.Length && i + 1 < csr.rowPtr.Length && csr.col.Length == csr.w.Length
  {
    var start, end := csr.rowPtr[i], csr.rowPtr[i + 1];
    && start <= end <= csr.col.Length
    && RowIsNode(keys, edges, i, csr.col[start..end], csr.w[start..end], csr.deg[i])
  }

  // The arrays are the undirected graph of the edges, row by row.
  ghost predicate IsGraph(csr: Csr, keys: seq<Node>, edges: seq<RankEdge>)
    reads csr.rowPtr, csr.col, csr.w, csr.deg
  {
    && csr.n == |keys| == csr.deg.Length && csr.rowPtr.Length == csr.n + 1 && csr.col.Length == csr.w.Length
    && csr.rowPtr[0] == 0 && csr.rowPtr[csr.n] == csr.col.Length
    && forall i :: 0 <= i < csr.n ==> RowAt(csr, keys, edges, i)
  }

  // A cell of a row is a conductance of its node.
  lemma CellIsConductance(keys: seq<Node>, edges: seq<RankEdge>, i: nat, c: Cell)
    ensures c in Row(GraphPairs(keys, edges), i) <==> Conductance(keys, edges, i, c.col, c.w)
  {
    GraphPairsAreExact(keys, edges);
    PairsAreConductances(keys, edges);
    CellsArePairs(GraphPairs(keys, edges), |keys|, i, c);
    ConductanceTurns(keys, edges, i, c.col, c.w);
    hide GraphPairs, Row, PairsBelow, DistinctPairs, MaxConductance, Between;
    assert Conductance(keys, edges, i, c.col, c.w) ==> i != c.col;
    hide Conductance;
  }

  lemma RowOfGraph(keys: seq<Node>, edges: seq<RankEdge>, i: nat, cols: seq<nat>, ws: seq<real>)
    requires var row := Row(GraphPairs(keys, edges), i);
      |cols| == |ws| == |row| && forall t :: 0 <= t < |row| ==> cols[t] == row[t].col && ws[t] == row[t].w
    ensures RowIsNode(keys, edges, i, cols, ws, Degree(GraphPairs(keys, edges), i))
  {
    var pairs := GraphPairs(keys, edges);
    GraphPairsAreExact(keys, edges);
    DegreeIsRow(pairs, |keys|, i);
    SumOfWeights(Row(pairs, i), ws);
    ColumnsDiffer(pairs, |keys|, i);
    hide GraphPairs, Row, PairsBelow, DistinctPairs, MaxConductance, Conductance, Degree, Between, Sum;
    var row := Row(pairs, i);
    forall t | 0 <= t < |row| ensures Conductance(keys, edges, i, cols[t], ws[t]) {
      CellIsConductance(keys, edges, i, row[t]);
    }
    forall e, j: nat | e in edges && i != j && Between(keys, e, i, j) ensures j in cols {
      var t := NeighbourSlot(keys, edges, i, j, e);
      assert cols[t] == j;
    }
  }

  lemma NeighbourSlot(keys: seq<Node>, edges: seq<RankEdge>, i: nat, j: nat, e: RankEdge) returns (t: nat)
    requires e in edges && i != j && Between(keys, e, i, j)
    ensures t < |Row(GraphPairs(keys, edges), i)| && Row(GraphPairs(keys, edges), i)[t].col == j
  {
    var w := SomeConductance(keys, edges, i, j, e);
    CellIsConductance(keys, edges, i, Cell(j, w));
    hide GraphPairs, Row, Conductance, Between;
    var row := Row(GraphPairs(keys, edges), i);
    t :| 0 <= t < |row| && row[t] == Cell(j, w);
  }

  // Joined nodes have a conductance.
  lemma {:induction false} SomeConductance(keys: seq<Node>, edges: seq<RankEdge>, i: int, j: int, e: RankEdge)
    returns (w: real)
    requires e in edges && i != j && Between(keys, e, i, j)
    ensures Conductance(keys, edges, i, j, w)
  {
    hide Between;
    var init, last := edges[..|edges| - 1], edges[|edges| - 1];
    assert forall f :: f in edges <==> f in init || f == last;
    if f :| f in init && Between(keys, f, i, j) {
      var v := SomeConductance(keys, init, i, j, f);
      w := if Between(keys, last, i, j) && v < last.weight then last.weight else v;
    } else {
      w := if last.weight < 0.0 then 0.0 else last.weight;
    }
  }

  lemma CsrIsGraph(csr: Csr, keys: seq<Node>, edges: seq<RankEdge>)
    requires csr.n == |keys| && IsCsr(csr, GraphPairs(keys, edges))
    ensures IsGraph(csr, keys, edges)
  {
    hide GraphPairs, Row, Degree, RowIsNode;
    var pairs := GraphPairs(keys, edges);
    var starts := csr.rowPtr[..];
    var rows := Rows(pairs, csr.n);
    forall i: nat | i < csr.n ensures RowAt(csr, keys, edges, i) {
      assert starts[i] <= starts[i + 1] <= starts[csr.n];
      assert Holds(rows[i], starts[i], csr.col[..], csr.w[..]);
      RowOfGraph(keys, edges, i, csr.col[csr.rowPtr[i]..csr.rowPtr[i + 1]], csr.w[csr.rowPtr[i]..csr.rowPtr[i + 1]]);
    }
  }

  method BuildHeatCsr(nodeKeys: seq<Node>, edges: seq<RankEdge>) returns (csr: Csr)
    ensures fresh(csr.rowPtr) && fresh(csr.col) && fresh(csr.w) && fresh(csr.deg)
    ensures csr.n == |nodeKeys| && IsCsr(csr, GraphPairs(nodeKeys, edges))
    ensures IsGraph(csr, nodeKeys, edges)
  {
    hide IsCsr, MaxConductance, IsGraph;
    var best := CollectPairs(nodeKeys, edges);
    GraphPairsAreExact(nodeKeys, edges);
    csr := Assemble(SortByFirst(best), |nodeKeys|);
    CsrIsGraph(csr, nodeKeys, edges);
  }
}
