/** The matrix that one pass over the games builds, and why the reduced system always has a solution.

    Every game of a pair adds its weight to two diagonal cells and subtracts it from the two cells that join
    the pair. Vectors and matrices are functions of their indices, so that submatrices need no copying. */
module Laplacian {
  import opened Sums

  datatype Edge = Edge(first: nat, second: nat, weight: real)

  ghost predicate ValidEdges(edges: seq<Edge>, n: nat) {
    forall e <- edges :: e.first < n && e.second < n && e.first != e.second
  }

  /** What one game adds to cell (i, j). */
  function Contribution(e: Edge, i: nat, j: nat): real {
    if i == j then (if i == e.first || i == e.second then e.weight else 0.0)
    else if (i == e.first && j == e.second) || (i == e.second && j == e.first) then -e.weight
    else 0.0
  }

  /** Cell (i, j) after all games. */
  function Cell(edges: seq<Edge>, i: nat, j: nat): real {
    if edges == [] then 0.0
    else Cell(edges[..|edges| - 1], i, j) + Contribution(edges[|edges| - 1], i, j)
  }

  function Square(d: real): real {
    d * d
  }

  lemma Positive(a: real, b: real, product: real)
    requires a > 0.0 && b > 0.0 && product == a * b
    ensures product > 0.0
  {
  }

  lemma SquareSign(d: real)
    ensures Square(d) >= 0.0
    ensures d != 0.0 ==> Square(d) > 0.0
  {
    if d < 0.0 {
      assert Square(d) == (-d) * (-d);
      Positive(-d, -d, Square(d));
    } else if d > 0.0 {
      Positive(d, d, Square(d));
    }
  }

  /** The sum over games of weight times the squared difference across the game. */
  function Energy(edges: seq<Edge>, x: Vector): real {
    if edges == [] then 0.0
    else
      var e := edges[|edges| - 1];
      Energy(edges[..|edges| - 1], x) + EdgeEnergy(e, x)
  }

  function EdgeEnergy(e: Edge, x: Vector): real {
    e.weight * Square(x(e.first) - x(e.second))
  }

  function Row(edges: seq<Edge>, i: nat): Vector {
    (j: nat) => Cell(edges, i, j)
  }

  /** The matrix times a vector. */
  function Times(edges: seq<Edge>, x: Vector, n: nat): Vector {
    (i: nat) => Dot(Row(edges, i), x, n)
  }

  /** The quadratic form of the matrix. */
  function Form(edges: seq<Edge>, x: Vector, n: nat): real {
    Dot(Times(edges, x, n), x, n)
  }

  lemma {:induction false} Symmetric(edges: seq<Edge>, i: nat, j: nat)
    ensures Cell(edges, i, j) == Cell(edges, j, i)
  {
    if edges != [] {
      Symmetric(edges[..|edges| - 1], i, j);
    }
  }

  function ContributionRow(e: Edge, i: nat): Vector {
    (j: nat) => Contribution(e, i, j)
  }

  /** What one game adds to the matrix times `x`. */
  function Flow(e: Edge, x: Vector, n: nat): Vector {
    (i: nat) => Dot(ContributionRow(e, i), x, n)
  }

  lemma Differences(w: real, a: real, b: real)
    ensures w * a + (-w) * b == w * (a - b)
  {
    assert (-w) * b == -(w * b);
  }

  lemma FlowValue(e: Edge, x: Vector, n: nat, i: nat)
    requires e.first < n && e.second < n && e.first != e.second
    ensures i == e.first ==> Flow(e, x, n)(i) == e.weight * (x(i) - x(e.second))
    ensures i == e.second ==> Flow(e, x, n)(i) == e.weight * (x(i) - x(e.first))
    ensures i !in {e.first, e.second} ==> Flow(e, x, n)(i) == 0.0
  {
    var row := ContributionRow(e, i);
    if i == e.first || i == e.second {
      var ordered := e.first < e.second;
      var low, high := if ordered then e.first else e.second, if ordered then e.second else e.first;
      DotPair(row, x, n, low, high);
      Differences(e.weight, x(i), x(if i == e.first then e.second else e.first));
    } else {
      DotZero(row, x, n);
    }
  }

  lemma TimesStep(edges: seq<Edge>, x: Vector, n: nat, i: nat)
    requires edges != []
    ensures Times(edges, x, n)(i) == Times(edges[..|edges| - 1], x, n)(i) + Flow(edges[|edges| - 1], x, n)(i)
  {
    var e, rest := edges[|edges| - 1], edges[..|edges| - 1];
    DotPlus(Row(rest, i), ContributionRow(e, i), Row(edges, i), x, n);
  }

  /** Every row sums to zero: the matrix sends a constant vector to zero. */
  lemma {:induction false} RowSumsAreZero(edges: seq<Edge>, i: nat, x: Vector, n: nat)
    requires ValidEdges(edges, n) && forall a: nat, b: nat :: x(a) == x(b)
    ensures Times(edges, x, n)(i) == 0.0
  {
    if edges == [] {
      DotZero(Row(edges, i), x, n);
    } else {
      TimesStep(edges, x, n, i);
      assert edges[|edges| - 1] in edges;
      FlowValue(edges[|edges| - 1], x, n, i);
      RowSumsAreZero(edges[..|edges| - 1], i, x, n);
    }
  }

  lemma CrossTerms(w: real, a: real, b: real, p: real, q: real)
    requires p == w * (a - b) && q == w * (b - a)
    ensures p * a + q * b == w * Square(a - b)
  {
    assert w * Square(a - b) == (w * (a - b)) * (a - b);
    assert q == -p;
    assert p * a + q * b == p * (a - b);
  }

  lemma FlowDot(e: Edge, x: Vector, n: nat)
    requires e.first < n && e.second < n && e.first != e.second
    ensures Dot(Flow(e, x, n), x, n) == Flow(e, x, n)(e.first) * x(e.first) + Flow(e, x, n)(e.second) * x(e.second)
  {
    var flow := Flow(e, x, n);
    forall i: nat | i < n && i != e.first && i != e.second
      ensures flow(i) == 0.0
    {
      FlowValue(e, x, n, i);
    }
    var ordered := e.first < e.second;
    var low, high := if ordered then e.first else e.second, if ordered then e.second else e.first;
    DotPair(flow, x, n, low, high);
  }

  lemma FlowForm(e: Edge, x: Vector, n: nat)
    requires e.first < n && e.second < n && e.first != e.second
    ensures Dot(Flow(e, x, n), x, n) == EdgeEnergy(e, x)
  {
    FlowDot(e, x, n);
    FlowValue(e, x, n, e.first);
    FlowValue(e, x, n, e.second);
    CrossTerms(e.weight, x(e.first), x(e.second), Flow(e, x, n)(e.first), Flow(e, x, n)(e.second));
  }

  lemma FormStep(edges: seq<Edge>, x: Vector, n: nat)
    requires edges != []
    ensures Form(edges, x, n) == Form(edges[..|edges| - 1], x, n) + Dot(Flow(edges[|edges| - 1], x, n), x, n)
  {
    var e, rest := edges[|edges| - 1], edges[..|edges| - 1];
    forall i: nat | i < n
      ensures Times(edges, x, n)(i) == Times(rest, x, n)(i) + Flow(e, x, n)(i)
    {
      TimesStep(edges, x, n, i);
    }
    DotPlus(Times(rest, x, n), Flow(e, x, n), Times(edges, x, n), x, n);
  }

  lemma FormOfNothing(x: Vector, n: nat)
    ensures Form([], x, n) == 0.0
  {
    forall i: nat | i < n
      ensures Times([], x, n)(i) == 0.0
    {
      DotZero(Row([], i), x, n);
    }
    DotZero(Times([], x, n), x, n);
  }

  /** The quadratic form is the energy: weight times squared difference, summed over the games. */
  lemma {:induction false} FormIsEnergy(edges: seq<Edge>, x: Vector, n: nat)
    requires ValidEdges(edges, n)
    ensures Form(edges, x, n) == Energy(edges, x)
  {
    if edges == [] {
      FormOfNothing(x, n);
    } else {
      FormStep(edges, x, n);
      assert edges[|edges| - 1] in edges;
      FlowForm(edges[|edges| - 1], x, n);
      FormIsEnergy(edges[..|edges| - 1], x, n);
    }
  }

  // ---------------------------------------------------------------- positivity

  lemma WeightedSquare(w: real, d: real)
    requires w >= 0.0
    ensures w * Square(d) >= 0.0
    ensures w > 0.0 && w * Square(d) == 0.0 ==> d == 0.0
  {
    SquareSign(d);
    if w > 0.0 && d != 0.0 {
      Positive(w, Square(d), w * Square(d));
    }
  }

  lemma {:induction false} EnergyNonNegative(edges: seq<Edge>, x: Vector)
    requires forall e <- edges :: e.weight >= 0.0
    ensures Energy(edges, x) >= 0.0
  {
    if edges != [] {
      var e := edges[|edges| - 1];
      EnergyNonNegative(edges[..|edges| - 1], x);
      WeightedSquare(e.weight, x(e.first) - x(e.second));
    }
  }

  /** With positive weights, zero energy makes the vector constant across every game. */
  lemma {:induction false} ZeroEnergyIsConstant(edges: seq<Edge>, x: Vector, e: Edge)
    requires (forall f <- edges :: f.weight > 0.0) && Energy(edges, x) == 0.0 && e in edges
    ensures x(e.first) == x(e.second)
  {
    var last, rest := edges[|edges| - 1], edges[..|edges| - 1];
    assert last in edges;
    assert forall f <- rest :: f in edges;
    EnergyNonNegative(rest, x);
    WeightedSquare(last.weight, x(last.first) - x(last.second));
    if e != last {
      assert e in rest;
      ZeroEnergyIsConstant(rest, x, e);
    }
  }

  // ---------------------------------------------------------------- reachability

  type Graph = seq<set<nat>>

  ghost predicate IsWalk(graph: Graph, walk: seq<nat>) {
    && |walk| > 0
    && (forall i | 0 <= i < |walk| :: walk[i] < |graph|)
    && (forall i | 0 <= i < |walk| - 1 :: walk[i + 1] in graph[walk[i]])
  }

  ghost predicate WalkJoins(graph: Graph, walk: seq<nat>, a: nat, b: nat) {
    IsWalk(graph, walk) && walk[0] == a && walk[|walk| - 1] == b
  }

  ghost predicate Reaches(graph: Graph, a: nat, b: nat) {
    exists walk :: WalkJoins(graph, walk, a, b)
  }

  lemma ReachesSelf(graph: Graph, a: nat)
    requires a < |graph|
    ensures Reaches(graph, a, a)
  {
    assert WalkJoins(graph, [a], a, a);
  }

  lemma ReachesNext(graph: Graph, a: nat, b: nat, c: nat)
    requires Reaches(graph, a, b) && b < |graph| && c in graph[b] && c < |graph|
    ensures Reaches(graph, a, c)
  {
    var walk :| WalkJoins(graph, walk, a, b);
    assert WalkJoins(graph, walk + [c], a, c);
  }

  /** A set that holds `a` and every neighbour of its members holds all that `a` reaches. */
  lemma {:induction false} ClosedHoldsReachable(graph: Graph, a: nat, walk: seq<nat>, s: set<nat>)
    requires IsWalk(graph, walk) && walk[0] == a && a in s
    requires forall u: nat, v: nat | u in s && u < |graph| && v in graph[u] :: v in s
    ensures walk[|walk| - 1] in s
    decreases |walk|
  {
    if |walk| > 1 {
      var shorter := walk[..|walk| - 1];
      ClosedHoldsReachable(graph, a, shorter, s);
      assert walk[|walk| - 1] in graph[walk[|walk| - 2]];
    }
  }

  /** The graph of who met whom. */
  ghost predicate GraphOf(graph: Graph, edges: seq<Edge>) {
    forall u, v | 0 <= u < |graph| ::
      v in graph[u] <==> exists e :: e in edges && ((e.first == u && e.second == v) || (e.first == v && e.second == u))
  }

  lemma {:induction false} ConstantAlongWalk(graph: Graph, edges: seq<Edge>, x: Vector, walk: seq<nat>)
    requires GraphOf(graph, edges) && IsWalk(graph, walk)
    requires forall e <- edges :: x(e.first) == x(e.second)
    ensures x(walk[0]) == x(walk[|walk| - 1])
    decreases |walk|
  {
    if |walk| > 1 {
      ConstantAlongWalk(graph, edges, x, walk[..|walk| - 1]);
      assert walk[|walk| - 1] in graph[walk[|walk| - 2]];
    }
  }

  // ---------------------------------------------------------------- the reduced system

  /** The vector over all engines that has `y` at the positions listed in `list` and zero elsewhere. */
  function ScatterAt(list: seq<nat>, y: Vector, j: nat): real {
    if list == [] then 0.0
    else if list[|list| - 1] == j then y(|list| - 1)
    else ScatterAt(list[..|list| - 1], y, j)
  }

  function Scatter(list: seq<nat>, y: Vector): Vector {
    (j: nat) => ScatterAt(list, y, j)
  }

  function Gather(list: seq<nat>, g: Vector): Vector {
    (c: nat) => if c < |list| then g(list[c]) else 0.0
  }

  ghost predicate Distinct(list: seq<nat>, n: nat) {
    (forall c | 0 <= c < |list| :: list[c] < n) && forall c, d | 0 <= c < d < |list| :: list[c] != list[d]
  }

  lemma {:induction false} ScatterListed(list: seq<nat>, y: Vector, n: nat, c: nat)
    requires Distinct(list, n) && c < |list|
    ensures ScatterAt(list, y, list[c]) == y(c)
  {
    if c < |list| - 1 {
      ScatterListed(list[..|list| - 1], y, n, c);
    }
  }

  lemma {:induction false} ScatterUnlisted(list: seq<nat>, y: Vector, j: nat)
    requires j !in list
    ensures ScatterAt(list, y, j) == 0.0
  {
    if list != [] {
      ScatterUnlisted(list[..|list| - 1], y, j);
    }
  }

  lemma ScatterSplit(list: seq<nat>, y: Vector, j: nat)
    requires list != [] && list[|list| - 1] !in list[..|list| - 1]
    ensures ScatterAt(list, y, j)
         == ScatterAt(list[..|list| - 1], y, j) + if j == list[|list| - 1] then y(|list| - 1) else 0.0
  {
    ScatterUnlisted(list[..|list| - 1], y, list[|list| - 1]);
  }

  lemma ScatterStep(list: seq<nat>, y: Vector, g: Vector, n: nat)
    requires Distinct(list, n) && list != []
    ensures
      var last := |list| - 1;
      Dot(Scatter(list, y), g, n) == Dot(Scatter(list[..last], y), g, n) + y(last) * g(list[last])
  {
    var last, rest := |list| - 1, list[..|list| - 1];
    var point := (j: nat) => if j == list[last] then y(last) else 0.0;
    forall j: nat
      ensures Scatter(list, y)(j) == Scatter(rest, y)(j) + point(j)
    {
      ScatterSplit(list, y, j);
    }
    DotPlus(Scatter(rest, y), point, Scatter(list, y), g, n);
    DotSingle(point, g, n, list[last]);
  }

  /** A product over the listed positions is the product over all positions with the scattered vector. */
  lemma {:induction false} GatherDot(list: seq<nat>, y: Vector, g: Vector, n: nat)
    requires Distinct(list, n)
    ensures Dot(Gather(list, g), y, |list|) == Dot(Scatter(list, y), g, n)
  {
    if list == [] {
      forall j: nat
        ensures Scatter(list, y)(j) == 0.0
      {
        assert ScatterAt(list, y, j) == 0.0;
      }
      DotZero(Scatter(list, y), g, n);
    } else {
      var last, rest := |list| - 1, list[..|list| - 1];
      GatherDot(rest, y, g, n);
      DotSame(Gather(list, g), Gather(rest, g), y, y, last);
      ScatterStep(list, y, g, n);
      Swap(g(list[last]), y(last));
    }
  }

  lemma Swap(a: real, b: real)
    ensures a * b == b * a
  {
  }

  /** The matrix reduced to the listed rows and columns, times `y`. */
  function ReducedTimes(edges: seq<Edge>, list: seq<nat>, y: Vector): Vector {
    (r: nat) => if r < |list| then Dot(Gather(list, Row(edges, list[r])), y, |list|) else 0.0
  }

  /** The quadratic form of the reduced matrix. */
  function ReducedForm(edges: seq<Edge>, list: seq<nat>, y: Vector): real {
    Dot(ReducedTimes(edges, list, y), y, |list|)
  }

  lemma ReducedTimesIsTimes(edges: seq<Edge>, list: seq<nat>, y: Vector, n: nat, r: nat)
    requires Distinct(list, n) && r < |list|
    ensures ReducedTimes(edges, list, y)(r) == Times(edges, Scatter(list, y), n)(list[r])
  {
    GatherDot(list, y, Row(edges, list[r]), n);
    DotSwap(Scatter(list, y), Row(edges, list[r]), n);
  }

  /** The reduced quadratic form is the energy of the vector extended by zeros. */
  lemma ReducedFormIsEnergy(edges: seq<Edge>, list: seq<nat>, y: Vector, n: nat)
    requires ValidEdges(edges, n) && Distinct(list, n)
    ensures ReducedForm(edges, list, y) == Energy(edges, Scatter(list, y))
  {
    var x := Scatter(list, y);
    forall r: nat | r < |list|
      ensures ReducedTimes(edges, list, y)(r) == Gather(list, Times(edges, x, n))(r)
    {
      ReducedTimesIsTimes(edges, list, y, n, r);
    }
    DotSame(ReducedTimes(edges, list, y), Gather(list, Times(edges, x, n)), y, y, |list|);
    GatherDot(list, y, Times(edges, x, n), n);
    DotSwap(x, Times(edges, x, n), n);
    FormIsEnergy(edges, x, n);
  }

  /** The reduced information matrix has a trivial kernel: with positive weights, and every listed position other
      than the fixed one reachable from it, only the zero vector is sent to zero. Hence its inverse exists. */
  lemma ReducedKernelIsTrivial(edges: seq<Edge>, n: nat, graph: Graph, fixed: nat, list: seq<nat>, y: Vector, c: nat)
    requires ValidEdges(edges, n) && (forall e <- edges :: e.weight > 0.0)
    requires |graph| == n && GraphOf(graph, edges)
    requires Distinct(list, n) && fixed !in list && forall j <- list :: Reaches(graph, fixed, j)
    requires forall r: nat | r < |list| :: ReducedTimes(edges, list, y)(r) == 0.0
    requires c < |list|
    ensures y(c) == 0.0
  {
    var x := Scatter(list, y);
    DotZero(ReducedTimes(edges, list, y), y, |list|);
    ReducedFormIsEnergy(edges, list, y, n);
    forall e <- edges
      ensures x(e.first) == x(e.second)
    {
      ZeroEnergyIsConstant(edges, x, e);
    }
    assert list[c] in list;
    var walk :| WalkJoins(graph, walk, fixed, list[c]);
    ConstantAlongWalk(graph, edges, x, walk);
    ScatterUnlisted(list, y, fixed);
    ScatterListed(list, y, n, c);
  }

  /** With weights that are not negative, the reduced quadratic form is not negative either. */
  lemma ReducedFormNonNegative(edges: seq<Edge>, n: nat, list: seq<nat>, b: Vector)
    requires ValidEdges(edges, n) && (forall e <- edges :: e.weight >= 0.0) && Distinct(list, n)
    ensures ReducedForm(edges, list, b) >= 0.0
  {
    ReducedFormIsEnergy(edges, list, b, n);
    EnergyNonNegative(edges, Scatter(list, b));
  }
}
