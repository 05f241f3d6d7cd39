/**
 What a route of the planner is, cell by cell and step by step, and what a shortest one costs when
 nothing is in the way.
 */
module Routes {
  import opened BestFirst
  import opened RoutePlanner

  /** From `a` to `b` is one of the eight ways to a cell beside it, straight or diagonal. */
  predicate Beside(cols: Positive, a: nat, b: nat) {
    && -1 <= a % cols - b % cols <= 1 && -1 <= a / cols - b / cols <= 1
    && (a % cols != b % cols || a / cols != b / cols)
  }

  predicate IsDiagonal(cols: Positive, a: nat, b: nat) {
    a % cols != b % cols && a / cols != b / cols
  }

  /** The step to `p[i]` goes to a cell of the grid beside the one before: not a blocked one, but for the goal. */
  ghost predicate Leg(q: Problem, p: seq<nat>, i: nat) {
    && 0 < i < |p| && p[i] < |q.blocked|
    && Beside(q.cols, p[i - 1], p[i]) && (q.blocked[p[i]] ==> p[i] == q.goal)
  }

  /** From the start to the goal, leg by leg. */
  ghost predicate IsWay(q: Problem, p: seq<nat>) {
    && p != [] && p[0] == q.start < |q.blocked| && p[|p| - 1] == q.goal
    && forall i :: 0 < i < |p| ==> Leg(q, p, i)
  }

  lemma SameIndex(q: Problem, a: nat, b: nat)
    ensures Adjacent(q, a, b) <==> Beside(q.cols, a, b)
    ensures Adjacent(q, a, b) ==> Step(q, a, b) == if IsDiagonal(q.cols, a, b) then q.diagonal else 1.0
  {
    SameCellIs(q, a, b);
  }

  lemma LegMeans(q: Problem, p: seq<nat>, i: nat)
    requires 0 < i < |p|
    ensures Joined(GraphOf(q), p, i) <==> Leg(q, p, i)
  {
    SameIndex(q, p[i - 1], p[i]);
  }

  /** What the search calls a route is exactly that. */
  lemma RouteMeans(q: Problem, p: seq<nat>)
    ensures IsRoute(GraphOf(q), p) <==> IsWay(q, p)
  {
    var g := GraphOf(q);
    forall i | 0 < i < |p| ensures Joined(g, p, i) <==> Leg(q, p, i) {
      LegMeans(q, p, i);
    }
    if IsWay(q, p) {
      forall i | 0 <= i < |p| ensures p[i] < g.cells {
        assert i > 0 ==> Leg(q, p, i);
      }
    }
  }

  function Diagonals(cols: Positive, p: seq<nat>): (n: nat)
    ensures n <= |p|
  {
    if |p| <= 1 then 0
    else Diagonals(cols, p[..|p| - 1]) + if IsDiagonal(cols, p[|p| - 2], p[|p| - 1]) then 1 else 0
  }

  lemma {:induction false} LegsBefore(q: Problem, p: seq<nat>, n: nat)
    requires n <= |p| && forall i :: 0 < i < |p| ==> Leg(q, p, i)
    ensures forall i :: 0 < i < n ==> Leg(q, p[..n], i)
  {
    forall i | 0 < i < n ensures Leg(q, p[..n], i) {
      assert Leg(q, p, i);
    }
  }

  /** The last leg adds one diagonal and its cost, or one straight step and a cost of one. */
  lemma LastLeg(q: Problem, p: seq<nat>) returns (diagonal: bool)
    requires |p| > 1 && Leg(q, p, |p| - 1)
    ensures
      var before := p[..|p| - 1];
      && Diagonals(q.cols, p) == Diagonals(q.cols, before) + (if diagonal then 1 else 0)
      && Length(GraphOf(q), p) == Length(GraphOf(q), before) + if diagonal then q.diagonal else 1.0
  {
    diagonal := IsDiagonal(q.cols, p[|p| - 2], p[|p| - 1]);
    SameIndex(q, p[|p| - 2], p[|p| - 1]);
  }

  /** What so many steps cost, so many of them diagonal. */
  function Price(diagonal: real, steps: nat, diagonals: nat): real {
    (steps - diagonals) as real + diagonal * diagonals as real
  }

  lemma PriceStep(d: real, steps: nat, diagonals: nat)
    ensures Price(d, steps + 1, diagonals) == Price(d, steps, diagonals) + 1.0
    ensures Price(d, steps + 1, diagonals + 1) == Price(d, steps, diagonals) + d
  {
    assert d * (diagonals + 1) as real == d * diagonals as real + d;
  }

  /** A way costs one for each straight step and the diagonal's cost for each diagonal one. */
  lemma {:induction false} LengthMeans(q: Problem, p: seq<nat>)
    requires p != [] && forall i :: 0 < i < |p| ==> Leg(q, p, i)
    ensures Length(GraphOf(q), p) == Price(q.diagonal, |p| - 1, Diagonals(q.cols, p))
    decreases |p|
  {
    if |p| > 1 {
      var n := |p| - 1;
      LegsBefore(q, p, n);
      LengthMeans(q, p[..n]);
      assert Leg(q, p, n);
      var _ := LastLeg(q, p);
      PriceStep(q.diagonal, n - 1, Diagonals(q.cols, p[..n]));
    }
  }

  // With nothing in the way.

  lemma {:induction false} LengthPrepend(g: Graph, a: nat, p: seq<nat>)
    requires p != []
    ensures Length(g, [a] + p) == g.step(a, p[0]) + Length(g, p)
    decreases |p|
  {
    var all, n := [a] + p, |p|;
    if n == 1 {
      assert all[..1] == [a];
    } else {
      assert all[..n] == [a] + p[..n - 1];
      LengthPrepend(g, a, p[..n - 1]);
    }
  }

  /** One step nearer: diagonally while both the column and the row are off. */
  lemma Nearer(q: Problem, a: nat) returns (b: nat)
    requires q.Gridded() && a < q.Cells() && a != q.goal
    ensures b < q.Cells() && Adjacent(q, a, b)
    ensures Octile(q, a, q.goal) == Step(q, a, b) + Octile(q, b, q.goal)
    ensures Abs(q.Col(b) - q.Col(q.goal)) + Abs(q.Row(b) - q.Row(q.goal))
          < Abs(q.Col(a) - q.Col(q.goal)) + Abs(q.Row(a) - q.Row(q.goal))
  {
    CellRow(q, a);
    CellRow(q, q.goal);
    SameCellIs(q, a, q.goal);
    var i, j := Toward(q.Col(a), q.Col(q.goal)), Toward(q.Row(a), q.Row(q.goal));
    IndexRoundTrip(q, i, j);
    b := IndexOf(q, i, j);
    OctileToward(q.diagonal, q.Col(a), q.Col(q.goal), q.Row(a), q.Row(q.goal));
  }

  function Toward(x: int, y: int): int {
    if x < y then x + 1 else if x > y then x - 1 else x
  }

  lemma OctileToward(d: real, i: int, gi: int, j: int, gj: int)
    requires 1.0 <= d <= 2.0 && (i != gi || j != gj)
    ensures OctileOf(d, Abs(i - gi), Abs(j - gj))
         == (if i != gi && j != gj then d else 1.0) + OctileOf(d, Abs(Toward(i, gi) - gi), Abs(Toward(j, gj) - gj))
  {
    var x, y := Abs(Toward(i, gi) - gi), Abs(Toward(j, gj) - gj);
    OctileNudge(d, x, y);
    assert (d - 1.0) * 0.0 == 0.0;
  }

  lemma {:induction false} StraightThere(q: Problem, a: nat) returns (p: seq<nat>)
    requires q.Gridded() && a < q.Cells() && forall n :: 0 <= n < q.Cells() ==> !q.blocked[n]
    ensures Walk(GraphOf(q), p) && p[0] == a && p[|p| - 1] == q.goal
    ensures Length(GraphOf(q), p) == Octile(q, a, q.goal)
    decreases Abs(q.Col(a) - q.Col(q.goal)) + Abs(q.Row(a) - q.Row(q.goal))
  {
    var g := GraphOf(q);
    if a == q.goal {
      p := [a];
      OctileFacts(q, a);
    } else {
      var b := Nearer(q, a);
      var rest := StraightThere(q, b);
      p := [a] + rest;
      LengthPrepend(g, a, rest);
      forall i | 0 < i < |p| ensures Joined(g, p, i) {
        assert i > 1 ==> Joined(g, rest, i - 1);
      }
    }
  }

  lemma NoShorter(q: Problem, r: seq<nat>)
    requires q.Ok() && IsRoute(GraphOf(q), r)
    ensures Octile(q, q.start, q.goal) <= Length(GraphOf(q), r)
  {
    var g := GraphOf(q);
    GridIsConsistent(q);
    EstimateGrows(g, r, 0, |r| - 1);
    assert r[..1] == [q.start] && r[..|r|] == r;
    OctileFacts(q, q.goal);
  }

  function Far(cols: Positive, a: nat, b: nat): nat {
    var x, y := Abs(a % cols - b % cols), Abs(a / cols - b / cols);
    if x < y then y else x
  }

  function Near(cols: Positive, a: nat, b: nat): nat {
    var x, y := Abs(a % cols - b % cols), Abs(a / cols - b / cols);
    if x < y then x else y
  }

  lemma OctileMeans(q: Problem, a: nat, b: nat)
    ensures Octile(q, a, b) == Price(q.diagonal, Far(q.cols, a, b), Near(q.cols, a, b))
  {
    var near := Near(q.cols, a, b) as real;
    assert (q.diagonal - 1.0) * near == q.diagonal * near - near;
  }

  /**
   On a grid with nothing blocked, the cheapest way takes as many steps as the farther of the two
   differences, columns or rows, and as many of them diagonal as the nearer.
   */
  lemma OpenGridCost(q: Problem) returns (p: seq<nat>)
    requires q.Gridded() && forall n :: 0 <= n < q.Cells() ==> !q.blocked[n]
    ensures IsWay(q, p)
    ensures Length(GraphOf(q), p) == Price(q.diagonal, Far(q.cols, q.start, q.goal), Near(q.cols, q.start, q.goal))
    ensures forall r :: IsWay(q, r) ==> Length(GraphOf(q), p) <= Length(GraphOf(q), r)
  {
    p := StraightThere(q, q.start);
    RouteMeans(q, p);
    OctileMeans(q, q.start, q.goal);
    forall r | IsWay(q, r) ensures Length(GraphOf(q), p) <= Length(GraphOf(q), r) {
      RouteMeans(q, r);
      NoShorter(q, r);
    }
  }
}
