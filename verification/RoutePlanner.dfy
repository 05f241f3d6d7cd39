/**
 The robot's route planner: A* over a grid of cells with the diagonal allowed. Costs are exact
 reals, and the diagonal step is any cost between 1 and 2, which the square root of two is.
 */
module RoutePlanner {
  import opened Basics
  import opened BestFirst

  type Positive = n: nat | n > 0 witness 1

  /** The grid, which cells are blocked, where to start and end, and what a diagonal step costs. */
  datatype Problem = Problem(cols: Positive, rows: nat, blocked: seq<bool>, start: nat, goal: nat, diagonal: real) {
    function Cells(): nat {
      |blocked|
    }

    predicate Ok() {
      && start < Cells() && goal < Cells()
      && 1.0 <= diagonal <= 2.0
    }

    /** The blocked map has one entry for each cell of the grid. */
    predicate Gridded() {
      Ok() && |blocked| == cols * rows
    }

    function Col(n: nat): nat {
      n % cols
    }

    function Row(n: nat): nat {
      n / cols
    }

    /** Blocked cells cannot be entered, except the goal. */
    predicate Passable(n: nat) {
      n < |blocked| && (!blocked[n] || n == goal)
    }
  }

  lemma SquareRootOfTwoIsADiagonal(root: real)
    requires root > 0.0 && root * root == 2.0
    ensures 1.0 <= root <= 2.0
  {
    assert root < 1.0 ==> root * root < 1.0;
    assert root > 2.0 ==> root * root > 4.0;
  }

  function Abs(x: int): nat {
    if x < 0 then -x else x
  }

  predicate Adjacent(q: Problem, a: nat, b: nat)
  {
    a != b && Abs(q.Col(a) - q.Col(b)) <= 1 && Abs(q.Row(a) - q.Row(b)) <= 1
  }

  function Step(q: Problem, a: nat, b: nat): real
  {
    if Abs(q.Col(a) - q.Col(b)) == 1 && Abs(q.Row(a) - q.Row(b)) == 1 then q.diagonal else 1.0
  }

  // The heuristic.

  function OctileOf(diagonal: real, di: nat, dj: nat): real {
    var most, least := if di < dj then dj else di, if di < dj then di else dj;
    most as real + (diagonal - 1.0) * least as real
  }

  function Octile(q: Problem, a: nat, b: nat): real
  {
    OctileOf(q.diagonal, Abs(q.Col(a) - q.Col(b)), Abs(q.Row(a) - q.Row(b)))
  }

  lemma OctileNudge(d: real, x: nat, y: nat)
    requires 1.0 <= d <= 2.0
    ensures OctileOf(d, x, y) <= OctileOf(d, x + 1, y) <= OctileOf(d, x, y) + 1.0
    ensures OctileOf(d, x, y) <= OctileOf(d, x, y + 1) <= OctileOf(d, x, y) + 1.0
    ensures OctileOf(d, x + 1, y + 1) == OctileOf(d, x, y) + d
  {
    var c := d - 1.0;
    assert c * (x + 1) as real == c * x as real + c;
    assert c * (y + 1) as real == c * y as real + c;
  }

  lemma OctileMirror(d: real, x: nat, y: nat)
    requires 1.0 <= d <= 2.0
    ensures OctileOf(d, x + 1, y) <= OctileOf(d, x, y + 1) + d
    ensures OctileOf(d, x, y + 1) <= OctileOf(d, x + 1, y) + d
  {
    OctileNudge(d, x, y);
  }

  /** A neighbour's guess never drops by more than the step to it costs. */
  lemma OctileConsistent(q: Problem, a: nat, b: nat)
    requires q.Ok() && Adjacent(q, a, b)
    ensures Octile(q, a, q.goal) <= Step(q, a, b) + Octile(q, b, q.goal)
  {
    var d := q.diagonal;
    var x: int, y: int := Abs(q.Col(a) - q.Col(q.goal)), Abs(q.Row(a) - q.Row(q.goal));
    var x': int, y': int := Abs(q.Col(b) - q.Col(q.goal)), Abs(q.Row(b) - q.Row(q.goal));
    var lx, ly := if x < x' then x else x', if y < y' then y else y';
    assert Abs(x - x') <= Abs(q.Col(a) - q.Col(b)) && Abs(y - y') <= Abs(q.Row(a) - q.Row(b));
    OctileNudge(d, lx, ly);
    OctileMirror(d, lx, ly);
    if q.Col(a) == q.Col(b) && q.Row(a) == q.Row(b) {
      SameCell(q, a, b);
    }
  }

  lemma SameCell(q: Problem, a: nat, b: nat)
    requires q.Col(a) == q.Col(b) && q.Row(a) == q.Row(b)
    ensures a == b
  {
    assert a == q.cols * (a / q.cols) + a % q.cols;
    assert b == q.cols * (b / q.cols) + b % q.cols;
  }

  lemma OctileNonNegative(d: real, x: nat, y: nat)
    requires 1.0 <= d <= 2.0
    ensures OctileOf(d, x, y) >= 0.0 && OctileOf(d, 0, 0) == 0.0
  {
    ProductNonNegative(d - 1.0, (if x < y then x else y) as real);
  }

  lemma ProductNonNegative(a: real, b: real)
    requires a >= 0.0 && b >= 0.0
    ensures a * b >= 0.0
  {
  }

  lemma OctileFacts(q: Problem, a: nat)
    requires q.Ok()
    ensures Octile(q, a, q.goal) >= 0.0 && Octile(q, q.goal, q.goal) == 0.0
  {
    OctileNonNegative(q.diagonal, Abs(q.Col(a) - q.Col(q.goal)), Abs(q.Row(a) - q.Row(q.goal)));
  }

  /** The neighbours of a cell, in the order of the eight offsets, kept within the grid. */
  method NeighboursOf(q: Problem, index: nat) returns (found: seq<nat>)
    requires q.Gridded() && index < q.Cells()
    ensures forall n: nat :: n in found <==> n < q.Cells() && Adjacent(q, index, n)
  {
    var offsets: seq<(int, int)> := [(1, 0), (-1, 0), (0, 1), (0, -1), (1, 1), (1, -1), (-1, 1), (-1, -1)];
    var i, j := q.Col(index), q.Row(index);
    CellRow(q, index);
    found := [];
    for k := 0 to |offsets|
      invariant forall n :: n in found ==> n < q.Cells() && Adjacent(q, index, n)
      invariant forall m :: 0 <= m < k && InGrid(q, i + offsets[m].0, j + offsets[m].1) ==>
                  IndexOf(q, i + offsets[m].0, j + offsets[m].1) in found
    {
      var (di, dj) := offsets[k];
      var ni, nj := i + di, j + dj;
      if InGrid(q, ni, nj) {
        IndexRoundTrip(q, ni, nj);
        found := found + [IndexOf(q, ni, nj)];
      }
    }
    forall n: nat | n < q.Cells() && Adjacent(q, index, n) ensures n in found {
      CellRow(q, n);
      IndexRoundTrip(q, q.Col(n), q.Row(n));
      SameCellIs(q, index, n);
      SameCellIs(q, IndexOf(q, q.Col(n), q.Row(n)), n);
      var di, dj := q.Col(n) - i, q.Row(n) - j;
      var m := OffsetAt(di, dj);
      assert offsets[m] == (di, dj);
    }
  }

  function OffsetAt(di: int, dj: int): (m: nat)
    requires -1 <= di <= 1 && -1 <= dj <= 1 && (di != 0 || dj != 0)
    ensures m < 8
  {
    if dj == 0 then (if di == 1 then 0 else 1)
    else if di == 0 then (if dj == 1 then 2 else 3)
    else if di == 1 then (if dj == 1 then 4 else 5)
    else (if dj == 1 then 6 else 7)
  }

  predicate InGrid(q: Problem, i: int, j: int) {
    0 <= i < q.cols && 0 <= j < q.rows
  }

  function IndexOf(q: Problem, i: int, j: int): nat
    requires InGrid(q, i, j)
  {
    j * q.cols + i
  }

  lemma IndexBound(i: int, j: int, cols: int, rows: int)
    requires 0 <= i < cols && 0 <= j < rows
    ensures 0 <= j * cols + i < cols * rows
  {
    assert j * cols <= (rows - 1) * cols;
    assert (rows - 1) * cols == cols * rows - cols;
  }

  lemma IndexRoundTrip(q: Problem, i: int, j: int)
    requires q.Gridded() && InGrid(q, i, j)
    ensures IndexOf(q, i, j) < q.Cells() && q.Col(IndexOf(q, i, j)) == i && q.Row(IndexOf(q, i, j)) == j
  {
    IndexBound(i, j, q.cols, q.rows);
    QuotientUnique(IndexOf(q, i, j), q.cols, j, i);
  }

  lemma CellRow(q: Problem, n: nat)
    requires q.Gridded() && n < q.Cells()
    ensures InGrid(q, q.Col(n), q.Row(n))
  {
    RowBound(n, q.cols, q.rows);
  }

  lemma RowBound(n: nat, cols: nat, rows: nat)
    requires 0 < cols && n < cols * rows
    ensures n / cols < rows
  {
    var k := n / cols;
    assert n == cols * k + n % cols;
    assert k >= rows ==> cols * k >= cols * rows;
  }

  lemma SameCellIs(q: Problem, a: nat, b: nat)
    ensures q.Col(a) == q.Col(b) && q.Row(a) == q.Row(b) ==> a == b
  {
    if q.Col(a) == q.Col(b) && q.Row(a) == q.Row(b) {
      SameCell(q, a, b);
    }
  }

  // The grid as a graph.

  ghost function GraphOf(q: Problem): Graph {
    Graph(
      q.Cells(), q.start, q.goal,
      (a: nat, b: nat) => Adjacent(q, a, b) && q.Passable(b),
      (a: nat, b: nat) => Step(q, a, b),
      (n: nat) => Octile(q, n, q.goal))
  }

  lemma GridIsConsistent(q: Problem)
    requires q.Ok()
    ensures GraphOf(q).Consistent()
  {
    var g := GraphOf(q);
    OctileFacts(q, q.goal);
    forall a: nat, b: nat | g.edge(a, b) ensures g.step(a, b) >= 1.0 && g.guess(a) <= g.step(a, b) + g.guess(b) {
      OctileConsistent(q, a, b);
    }
  }

  /** Offers `to` the way through `from`; true when that was strictly better and allowed. */
  method Relax(q: Problem, cost: array<Cost>, came: array<int>, from: nat, to: nat) returns (better: bool)
    requires q.Ok() && cost.Length == came.Length == q.Cells() && from < q.Cells() && to < q.Cells()
    requires cost[from].At?
    modifies cost, came
    ensures better <==>
              q.Passable(to)
                  && (old(cost[to]).Infinite? || old(cost[from]).value + Step(q, from, to) < old(cost[to]).value)
    ensures cost[..] == if better then old(cost[..])[to := At(old(cost[from]).value + Step(q, from, to))]
        else old(cost[..])
    ensures came[..] == if better then old(came[..])[to := from] else old(came[..])
  {
    var next := cost[from].value + Step(q, from, to);
    if (q.blocked[to] && to != q.goal) || (cost[to].At? && next >= cost[to].value) {
      return false;
    }
    cost[to] := At(next);
    came[to] := from;
    better := true;
  }

  /** The open cell with the least estimate. */
  method Cheapest(q: Problem, cost: array<Cost>, open: set<nat>) returns (current: nat)
    requires cost.Length == q.Cells() && open != {}
    requires forall n :: n in open ==> n < q.Cells() && cost[n].At?
    ensures current in open
    ensures forall n :: n in open ==>
              cost[current].value + Octile(q, current, q.goal) <= cost[n].value + Octile(q, n, q.goal)
  {
    var left := open;
    current :| current in left;
    left := left - {current};
    var best := cost[current].value + Octile(q, current, q.goal);
    while left != {}
      invariant current in open && left <= open
      invariant best == cost[current].value + Octile(q, current, q.goal)
      invariant forall n :: n in open && n !in left ==> best <= cost[n].value + Octile(q, n, q.goal)
      decreases left
    {
      var index :| index in left;
      var guess := cost[index].value + Octile(q, index, q.goal);
      if guess < best {
        best, current := guess, index;
      }
      left := left - {index};
    }
  }

  /** Offers a neighbour a way through the cell being expanded, and opens it if the way is better. */
  method Offer(
    q: Problem, cost: array<Cost>, came: array<int>, before: set<nat>,
    ghost closed: set<nat>, ghost f: real, current: nat, to: nat)
    returns (open: set<nat>)
    requires q.Gridded() && cost.Length == came.Length == q.Cells() && to < q.Cells() && Adjacent(q, current, to)
    requires Expanding(GraphOf(q), cost[..], came[..], before, closed, f, current)
    modifies cost, came
    ensures Expanding(GraphOf(q), cost[..], came[..], open, closed, f, current)
    ensures Relaxed(GraphOf(q), cost[..], current, to)
    ensures forall n: nat :: Relaxed(GraphOf(q), old(cost[..]), current, n) ==>
        Relaxed(GraphOf(q), cost[..], current, n)
  {
    ghost var c, d := cost[..], came[..];
    var better := Relax(q, cost, came, current, to);
    OfferResult(GraphOf(q), c, d, before, closed, f, current, to, better);
    open := if better then before + {to} else before;
  }

  /** Expands one cell: offers every neighbour the way through it. */
  method Expand(
    q: Problem, cost: array<Cost>, came: array<int>, before: set<nat>, ghost closed: set<nat>, ghost f: real,
        current: nat)
    returns (open: set<nat>)
    requires q.Gridded() && cost.Length == came.Length == q.Cells()
    requires Expanding(GraphOf(q), cost[..], came[..], before, closed, f, current)
    modifies cost, came
    ensures Searching(GraphOf(q), cost[..], came[..], open, closed, f)
  {
    ghost var g := GraphOf(q);
    open := before;
    var found := NeighboursOf(q, current);
    for k := 0 to |found|
      invariant Expanding(g, cost[..], came[..], open, closed, f, current)
      invariant forall m :: 0 <= m < k ==> Relaxed(g, cost[..], current, found[m])
    {
      assert found[k] in found;
      open := Offer(q, cost, came, open, closed, f, current, found[k]);
    }
    forall n: nat ensures Relaxed(g, cost[..], current, n) {
      if n < q.Cells() && g.edge(current, n) { assert n in found; }
    }
    ExpansionDone(g, cost[..], came[..], open, closed, f, current);
  }

  /**
   The search. A way is returned exactly when the goal is somewhere else and can be reached; with
   the start before it, it is then a route, and no route is shorter. No cell is expanded twice:
   the unexpanded cells are the termination measure.
   */
  method Search(q: Problem) returns (way: seq<nat>)
    requires q.Gridded()
    ensures way != [] <==> q.start != q.goal && exists p :: IsRoute(GraphOf(q), p)
    ensures way != [] ==>
              && IsRoute(GraphOf(q), [q.start] + way)
              && forall p :: IsRoute(GraphOf(q), p) ==> Length(GraphOf(q), [q.start] + way) <= Length(GraphOf(q), p)
  {
    ghost var g := GraphOf(q);
    GridIsConsistent(q);
    var cost := new Cost[q.Cells()](_ => Infinite);
    var came := new int[q.Cells()](_ => -1);
    cost[q.start] := At(0.0);
    var open := {q.start};
    ghost var closed: set<nat> := {};
    ghost var f := g.guess(g.start);
    ghost var all := AllCells(q.Cells());
    SearchStarts(g, cost[..], came[..]);
    var found := false;
    while open != {}
      invariant Searching(g, cost[..], came[..], open, closed, f)
      invariant closed <= all
      decreases all - closed
    {
      var current := Cheapest(q, cost, open);
      if current == q.goal {
        found := true;
        break;
      }
      Promote(g, cost[..], came[..], open, closed, f, current);
      f := Estimate(g, cost[..], current);
      closed := closed + {current};
      assert current in all;
      open := Expand(q, cost, came, open - {current}, closed, f, current);
    }
    if !found {
      forall p ensures !IsRoute(g, p) {
        NothingOpenNoRoute(g, cost[..], came[..], closed, p);
      }
    } else {
      forall p | IsRoute(g, p) ensures cost[q.goal].value <= Length(g, p) {
        GoalIsOptimal(g, cost[..], came[..], open, closed, p);
      }
    }
    if found && q.start != q.goal {
      assert Reached(g, cost[..], came[..], closed, q.goal);
    }
    if came[q.goal] == -1 {
      return [];
    }
    way := WayBack(g, q.start, q.goal, cost, came, closed);
  }
}
