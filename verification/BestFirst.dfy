/**
 Best-first search with a consistent guess, over any finite graph: what the search keeps true from
 one expansion to the next, and why the goal is reached at least cost. The route planner supplies the
 graph.
 */
module BestFirst {

  /** Cells `0..cells`, which steps are allowed, what a step costs and the guess of what is left. */
  datatype Graph = Graph(
    cells: nat, start: nat, goal: nat,
    edge: (nat, nat) -> bool, step: (nat, nat) -> real, guess: nat -> real)
  {
    /** Steps cost at least 1, and a step never lowers the guess by more than it costs. */
    ghost predicate Consistent() {
      && start < cells && goal < cells
      && guess(goal) == 0.0
      && (forall a: nat, b: nat {:trigger edge(a, b)} :: edge(a, b) ==>
          step(a, b) >= 1.0 && guess(a) <= step(a, b) + guess(b))
    }
  }

  datatype Cost = Infinite | At(value: real)

  ghost predicate Walk(g: Graph, p: seq<nat>) {
    && p != []
    && (forall i :: 0 <= i < |p| ==> p[i] < g.cells)
    && (forall i {:trigger Joined(g, p, i)} :: 0 < i < |p| ==> Joined(g, p, i))
  }

  ghost predicate Joined(g: Graph, p: seq<nat>, i: nat) {
    0 < i < |p| && g.edge(p[i - 1], p[i])
  }

  ghost predicate IsRoute(g: Graph, p: seq<nat>) {
    Walk(g, p) && p[0] == g.start && p[|p| - 1] == g.goal
  }

  ghost function Length(g: Graph, p: seq<nat>): real {
    if |p| <= 1 then 0.0 else Length(g, p[..|p| - 1]) + g.step(p[|p| - 2], p[|p| - 1])
  }

  ghost function Estimate(g: Graph, cost: seq<Cost>, n: nat): real
    requires n < |cost| && cost[n].At?
  {
    cost[n].value + g.guess(n)
  }

  /** The reached cells are the open ones and the expanded ones; the goal is never expanded. */
  ghost predicate Shaped(g: Graph, cost: seq<Cost>, came: seq<int>, open: set<nat>, closed: set<nat>) {
    && g.Consistent()
    && |cost| == |came| == g.cells
    && open !! closed
    && (forall n: nat :: n < g.cells ==> (cost[n].At? <==> n in open || n in closed))
    && (forall n :: n in open ==> n < g.cells)
    && (forall n :: n in closed ==> n < g.cells)
    && cost[g.start] == At(0.0) && came[g.start] == -1
    && g.goal !in closed
  }

  /** Every reached cell but the start was reached from an expanded neighbour at that very cost. */
  ghost predicate Reached(g: Graph, cost: seq<Cost>, came: seq<int>, closed: set<nat>, n: nat)
    requires |cost| == |came| == g.cells && n < g.cells && cost[n].At?
  {
    && cost[n].value >= 0.0
    && (n != g.start ==>
          && 0 <= came[n] < g.cells
          && came[n] in closed
          && cost[came[n]].At?
          && g.edge(came[n], n)
          && cost[n].value == cost[came[n]].value + g.step(came[n], n))
  }

  ghost predicate Trails(g: Graph, cost: seq<Cost>, came: seq<int>, closed: set<nat>)
    requires |cost| == |came| == g.cells
  {
    && (forall n: nat {:trigger Reached(g, cost, came, closed, n)} ::
          n < g.cells && cost[n].At? ==> Reached(g, cost, came, closed, n))
    && (forall n: nat :: n < g.cells && cost[n].Infinite? ==> came[n] == -1)
  }

  /** If `n` can be stepped to from `c`, it is no dearer than going there through `c`. */
  ghost predicate Relaxed(g: Graph, cost: seq<Cost>, c: nat, n: nat) {
    c < |cost| && n < |cost| && cost[c].At? && g.edge(c, n) ==>
      cost[n].At? && cost[n].value <= cost[c].value + g.step(c, n)
  }

  ghost predicate AllRelaxed(g: Graph, cost: seq<Cost>, closed: set<nat>) {
    forall c, n: nat :: c in closed ==> Relaxed(g, cost, c, n)
  }

  /** Everything expanded is estimated at most `f`, everything still open at least `f`. */
  ghost predicate Divided(g: Graph, cost: seq<Cost>, open: set<nat>, closed: set<nat>, f: real)
    requires forall n :: n in open || n in closed ==> n < |cost| && cost[n].At?
  {
    && (forall n :: n in closed ==> Estimate(g, cost, n) <= f)
    && (forall n :: n in open ==> Estimate(g, cost, n) >= f)
  }

  /** What holds between two expansions. */
  ghost predicate Searching(g: Graph, cost: seq<Cost>, came: seq<int>, open: set<nat>, closed: set<nat>, f: real) {
    && Shaped(g, cost, came, open, closed)
    && Trails(g, cost, came, closed)
    && AllRelaxed(g, cost, closed)
    && Divided(g, cost, open, closed, f)
  }

  /** What holds while `from`, just moved to the expanded cells, offers its neighbours a way. */
  ghost predicate Expanding(g: Graph, cost: seq<Cost>, came: seq<int>, open: set<nat>, closed: set<nat>, f: real,
      from: nat) {
    && Shaped(g, cost, came, open, closed)
    && from in closed
    && Trails(g, cost, came, closed)
    && AllRelaxed(g, cost, closed - {from})
    && Divided(g, cost, open, closed, f)
    && Estimate(g, cost, from) == f
  }

  ghost function AllCells(cells: nat): (all: set<nat>)
    ensures forall n: nat :: n in all <==> n < cells
  {
    if cells == 0 then {} else AllCells(cells - 1) + {cells - 1}
  }

  lemma SearchStarts(g: Graph, cost: seq<Cost>, came: seq<int>)
    requires g.Consistent() && |cost| == |came| == g.cells
    requires forall n: nat :: n < g.cells ==> came[n] == -1 && cost[n] == if n == g.start then At(0.0) else Infinite
    ensures Searching(g, cost, came, {g.start}, {}, g.guess(g.start))
  {
  }

  lemma LengthNext(g: Graph, p: seq<nat>, j: nat)
    requires 0 < j < |p|
    ensures Length(g, p[..j + 1]) == Length(g, p[..j]) + g.step(p[j - 1], p[j])
  {
    assert p[..j + 1][..j] == p[..j];
  }

  /** Along a walk, length so far plus guess never shrinks. */
  lemma {:induction false} EstimateGrows(g: Graph, p: seq<nat>, i: nat, j: nat)
    requires g.Consistent() && Walk(g, p) && i <= j < |p|
    ensures Length(g, p[..i + 1]) + g.guess(p[i]) <= Length(g, p[..j + 1]) + g.guess(p[j])
    decreases j - i
  {
    if i < j {
      EstimateGrows(g, p, i, j - 1);
      LengthNext(g, p, j);
      assert Joined(g, p, j);
    }
  }

  lemma {:induction false} ExpandedPrefix(g: Graph, cost: seq<Cost>, came: seq<int>, open: set<nat>, closed: set<nat>,
      p: seq<nat>, i: nat)
    requires Shaped(g, cost, came, open, closed) && AllRelaxed(g, cost, closed)
    requires Walk(g, p) && p[0] == g.start && i < |p|
    requires forall k :: 0 <= k < i ==> p[k] in closed
    ensures cost[p[i]].At? && cost[p[i]].value <= Length(g, p[..i + 1])
    decreases i
  {
    if i > 0 {
      ExpandedPrefix(g, cost, came, open, closed, p, i - 1);
      assert p[i - 1] in closed && Relaxed(g, cost, p[i - 1], p[i]);
      assert Joined(g, p, i);
      LengthNext(g, p, i);
    }
  }

  lemma {:induction false} FirstOutside(p: seq<nat>, closed: set<nat>, i: nat) returns (k: nat)
    requires i < |p| && p[i] !in closed
    ensures k <= i && p[k] !in closed && forall j :: 0 <= j < k ==> p[j] in closed
    decreases i
  {
    if j :| 0 <= j < i && p[j] !in closed {
      k := FirstOutside(p, closed, j);
    } else {
      k := i;
    }
  }

  /** A route must leave the expanded cells, and does so through an open one reached no dearer. */
  lemma Frontier(g: Graph, cost: seq<Cost>, came: seq<int>, open: set<nat>, closed: set<nat>, p: seq<nat>)
      returns (k: nat)
    requires Shaped(g, cost, came, open, closed) && AllRelaxed(g, cost, closed) && IsRoute(g, p)
    ensures k < |p| && p[k] in open && cost[p[k]].value <= Length(g, p[..k + 1])
  {
    k := FirstOutside(p, closed, |p| - 1);
    ExpandedPrefix(g, cost, came, open, closed, p, k);
  }

  /** When the goal is the open cell with the least estimate, no route is shorter than its cost. */
  lemma GoalIsOptimal(g: Graph, cost: seq<Cost>, came: seq<int>, open: set<nat>, closed: set<nat>, p: seq<nat>)
    requires Shaped(g, cost, came, open, closed) && AllRelaxed(g, cost, closed)
    requires g.goal in open && forall n :: n in open ==> Estimate(g, cost, g.goal) <= Estimate(g, cost, n)
    requires IsRoute(g, p)
    ensures cost[g.goal].value <= Length(g, p)
  {
    var k := Frontier(g, cost, came, open, closed, p);
    EstimateGrows(g, p, k, |p| - 1);
    assert p[..|p| - 1 + 1] == p;
  }

  /** With nothing left open and the goal never expanded, there is no route at all. */
  lemma NothingOpenNoRoute(g: Graph, cost: seq<Cost>, came: seq<int>, closed: set<nat>, p: seq<nat>)
    requires Shaped(g, cost, came, {}, closed) && AllRelaxed(g, cost, closed)
    ensures !IsRoute(g, p)
  {
    if IsRoute(g, p) {
      var k := Frontier(g, cost, came, {}, closed, p);
    }
  }

  /** Because the guess is consistent, a strictly better offer never goes to an expanded cell. */
  lemma OfferSparesExpanded(g: Graph, cost: seq<Cost>, came: seq<int>, open: set<nat>, closed: set<nat>, f: real,
      from: nat, to: nat)
    requires Expanding(g, cost, came, open, closed, f, from) && to < g.cells && g.edge(from, to)
    requires cost[to].Infinite? || cost[from].value + g.step(from, to) < cost[to].value
    ensures to !in closed && to != g.start
    ensures cost[from].value + g.step(from, to) + g.guess(to) >= f
  {
    assert Reached(g, cost, came, closed, from);
    assert to in closed ==> Estimate(g, cost, to) <= f;
  }

  lemma OfferKeepsTrails(g: Graph, cost: seq<Cost>, came: seq<int>, closed: set<nat>, from: nat, to: nat)
    requires g.Consistent() && |cost| == |came| == g.cells && Trails(g, cost, came, closed)
    requires from in closed && from < g.cells && cost[from].At? && to < g.cells && to !in closed && to != g.start
    requires g.edge(from, to)
    ensures Trails(g, cost[to := At(cost[from].value + g.step(from, to))], came[to := from], closed)
  {
    var cost', came' := cost[to := At(cost[from].value + g.step(from, to))], came[to := from];
    assert Reached(g, cost, came, closed, from);
    forall n: nat | n < g.cells && cost'[n].At? ensures Reached(g, cost', came', closed, n) {
      if n != to {
        assert Reached(g, cost, came, closed, n);
      }
    }
  }

  lemma OfferKeepsRelaxed(g: Graph, cost: seq<Cost>, closed: set<nat>, to: nat, next: real)
    requires AllRelaxed(g, cost, closed) && to < |cost| && to !in closed
    requires cost[to].Infinite? || next < cost[to].value
    ensures AllRelaxed(g, cost[to := At(next)], closed)
  {
    var cost' := cost[to := At(next)];
    forall c, n: nat | c in closed ensures Relaxed(g, cost', c, n) {
      assert Relaxed(g, cost, c, n);
    }
  }

  lemma OfferKeepsDivided(g: Graph, cost: seq<Cost>, open: set<nat>, closed: set<nat>, f: real, to: nat, next: real)
    requires forall n :: n in open || n in closed ==> n < |cost| && cost[n].At?
    requires Divided(g, cost, open, closed, f) && to < |cost| && to !in closed
    requires next + g.guess(to) >= f
    ensures Divided(g, cost[to := At(next)], open + {to}, closed, f)
  {
    var cost' := cost[to := At(next)];
    forall n | n in closed ensures Estimate(g, cost', n) <= f {
      assert Estimate(g, cost, n) <= f;
    }
    forall n | n in open + {to} ensures Estimate(g, cost', n) >= f {
      if n != to { assert Estimate(g, cost, n) >= f; }
    }
  }

  lemma OfferKeeps(
    g: Graph, cost: seq<Cost>, came: seq<int>, open: set<nat>, closed: set<nat>, f: real, from: nat, to: nat)
    requires Expanding(g, cost, came, open, closed, f, from) && to < g.cells && g.edge(from, to)
    requires cost[to].Infinite? || cost[from].value + g.step(from, to) < cost[to].value
    ensures
      var better := cost[to := At(cost[from].value + g.step(from, to))];
      Expanding(g, better, came[to := from], open + {to}, closed, f, from)
  {
    OfferSparesExpanded(g, cost, came, open, closed, f, from, to);
    var next := cost[from].value + g.step(from, to);
    OfferKeepsTrails(g, cost, came, closed, from, to);
    OfferKeepsRelaxed(g, cost, closed - {from}, to, next);
    OfferKeepsDivided(g, cost, open, closed, f, to, next);
  }

  /** One offer, taken or not: the invariant stays, and so does everything already offered. */
  lemma OfferResult(
      g: Graph, cost: seq<Cost>, came: seq<int>, open: set<nat>, closed: set<nat>, f: real, from: nat, to: nat,
          better: bool)
    requires Expanding(g, cost, came, open, closed, f, from) && to < g.cells
    requires better <==>
        g.edge(from, to) && (cost[to].Infinite? || cost[from].value + g.step(from, to) < cost[to].value)
    ensures
      var cost' := if better then cost[to := At(cost[from].value + g.step(from, to))] else cost;
      var came' := if better then came[to := from] else came;
      var open' := if better then open + {to} else open;
      && Expanding(g, cost', came', open', closed, f, from)
      && Relaxed(g, cost', from, to)
      && (forall n: nat :: Relaxed(g, cost, from, n) ==> Relaxed(g, cost', from, n))
  {
    if better {
      OfferKeeps(g, cost, came, open, closed, f, from, to);
      OfferSparesExpanded(g, cost, came, open, closed, f, from, to);
    }
  }

  /** Follows the trail from the goal back to the start, and turns it round. */
  method WayBack(ghost g: Graph, start: nat, goal: nat, cost: array<Cost>, came: array<int>, ghost closed: set<nat>)
    returns (way: seq<nat>)
    requires g.Consistent() && g.start == start && g.goal == goal && cost.Length == came.Length == g.cells
    requires Trails(g, cost[..], came[..], closed)
    requires cost[start] == At(0.0) && cost[goal].At? && start != goal
    ensures way != [] && IsRoute(g, [start] + way)
    ensures Length(g, [start] + way) == cost[goal].value
  {
    ghost var c, d := cost[..], came[..];
    var at: nat := goal;
    way := [];
    assert [at] + way == [goal];
    assert Reached(g, c, d, closed, goal);
    while at != start
      invariant at < g.cells && c[at].At? && c[at].value >= 0.0
      invariant Walk(g, [at] + way) && ([at] + way)[|way|] == goal
      invariant c[at].value + Length(g, [at] + way) == c[goal].value
      decreases c[at].value.Floor
    {
      TrailExtends(g, c, d, closed, at, way);
      assert [d[at] as nat, at] + way == [d[at] as nat] + ([at] + way);
      way, at := [at] + way, came[at];
    }
  }

  /** Moving the open cell with the least estimate to the expanded ones. */
  lemma Promote(g: Graph, cost: seq<Cost>, came: seq<int>, open: set<nat>, closed: set<nat>, f: real, current: nat)
    requires Searching(g, cost, came, open, closed, f) && current in open && current != g.goal
    requires forall n :: n in open ==> Estimate(g, cost, current) <= Estimate(g, cost, n)
    ensures Expanding(g, cost, came, open - {current}, closed + {current}, Estimate(g, cost, current), current)
  {
    var closed' := closed + {current};
    forall n: nat | n < g.cells && cost[n].At? ensures Reached(g, cost, came, closed', n) {
      assert Reached(g, cost, came, closed, n);
    }
    assert closed' - {current} == closed;
    assert f <= Estimate(g, cost, current);
  }

  lemma ExpansionDone(g: Graph, cost: seq<Cost>, came: seq<int>, open: set<nat>, closed: set<nat>, f: real,
      current: nat)
    requires Expanding(g, cost, came, open, closed, f, current)
    requires forall n: nat :: Relaxed(g, cost, current, n)
    ensures Searching(g, cost, came, open, closed, f)
  {
    forall c, n: nat | c in closed ensures Relaxed(g, cost, c, n) {
      if c != current { assert c in closed - {current}; }
    }
  }

  /** Putting a reached cell after the walk its trail stands for. */
  lemma TrailExtends(g: Graph, cost: seq<Cost>, came: seq<int>, closed: set<nat>, n: nat, tail: seq<nat>)
    requires g.Consistent() && |cost| == |came| == g.cells && Trails(g, cost, came, closed)
    requires n < g.cells && cost[n].At? && n != g.start
    requires Walk(g, [n] + tail)
    ensures 0 <= came[n] < g.cells && cost[came[n]].At? && cost[came[n]].value >= 0.0
    ensures cost[came[n]].value + 1.0 <= cost[n].value
    ensures Walk(g, [came[n], n] + tail)
    ensures cost[came[n]].value + Length(g, [came[n], n] + tail) == cost[n].value + Length(g, [n] + tail)
  {
    assert Reached(g, cost, came, closed, n);
    assert Reached(g, cost, came, closed, came[n]);
    var p, p' := [n] + tail, [came[n] as nat, n] + tail;
    forall i | 0 < i < |p'| ensures Joined(g, p', i) {
      if i > 1 { assert Joined(g, p, i - 1); }
    }
    forall i | 0 <= i < |p'| ensures p'[i] < g.cells {
      if i > 0 { assert p'[i] == p[i - 1]; }
    }
    LengthCons(g, came[n], p);
    assert [came[n] as nat] + p == p';
  }

  lemma {:induction false} LengthCons(g: Graph, a: nat, p: seq<nat>)
    requires p != []
    ensures Length(g, [a] + p) == g.step(a, p[0]) + Length(g, p)
    decreases |p|
  {
    var ap := [a] + p;
    if |p| == 1 {
      assert Length(g, ap[..1]) == 0.0;
    } else {
      assert ap[..|ap| - 1] == [a] + p[..|p| - 1];
      LengthCons(g, a, p[..|p| - 1]);
    }
  }
}
