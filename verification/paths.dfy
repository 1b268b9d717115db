/**
 Routes through a graph given by neighbour lists. A step from `u` to `w` is
 allowed when `w` is on `u`'s list and `w` is not blocked; the first cell of
 a route is never checked, exactly as both searches of the game never test
 the cell they start from.
 */
module Paths {
  import opened Board
  import opened Adjacency

  predicate Step(adj: Lists, blocked: set<Pos>, u: Pos, w: Pos) {
    u in adj && w in adj[u] && w !in blocked
  }

  /** A non-empty sequence of cells, each one step from the one before. */
  ghost predicate IsPath(adj: Lists, blocked: set<Pos>, p: seq<Pos>) {
    |p| >= 1 && forall i :: 0 <= i < |p| - 1 ==> Step(adj, blocked, p[i], p[i + 1])
  }

  ghost predicate PathFromTo(adj: Lists, blocked: set<Pos>, p: seq<Pos>, a: Pos, b: Pos) {
    IsPath(adj, blocked, p) && p[0] == a && p[|p| - 1] == b
  }

  ghost predicate Reachable(adj: Lists, blocked: set<Pos>, a: Pos, b: Pos) {
    exists p :: PathFromTo(adj, blocked, p, a, b)
  }

  /** No route from `a` to `b` takes fewer than `n` steps. */
  ghost predicate NoShorter(adj: Lists, blocked: set<Pos>, a: Pos, b: Pos, n: nat) {
    forall p :: PathFromTo(adj, blocked, p, a, b) ==> n <= |p| - 1
  }

  /** `n` is the least number of steps from `a` to `b`. */
  ghost predicate Distance(adj: Lists, blocked: set<Pos>, a: Pos, b: Pos, n: nat) {
    && (exists p :: PathFromTo(adj, blocked, p, a, b) && |p| - 1 == n)
    && NoShorter(adj, blocked, a, b, n)
  }

  lemma {:induction false} PrefixIsPath(adj: Lists, blocked: set<Pos>, p: seq<Pos>, k: nat)
    requires IsPath(adj, blocked, p) && 1 <= k <= |p|
    ensures IsPath(adj, blocked, p[..k])
  {
    forall i | 0 <= i < k - 1
      ensures Step(adj, blocked, p[..k][i], p[..k][i + 1])
    {
      assert Step(adj, blocked, p[i], p[i + 1]);
    }
  }

  /** One more step extends a route. */
  lemma {:induction false} ExtendPath(adj: Lists, blocked: set<Pos>, p: seq<Pos>, w: Pos)
    requires IsPath(adj, blocked, p) && Step(adj, blocked, p[|p| - 1], w)
    ensures IsPath(adj, blocked, p + [w])
  {
    var q := p + [w];
    forall i | 0 <= i < |q| - 1
      ensures Step(adj, blocked, q[i], q[i + 1])
    {
      if i < |p| - 1 {
        assert Step(adj, blocked, p[i], p[i + 1]);
      }
    }
  }

  lemma {:induction false} ReachStep(adj: Lists, blocked: set<Pos>, a: Pos, u: Pos, w: Pos)
    requires Reachable(adj, blocked, a, u) && Step(adj, blocked, u, w)
    ensures Reachable(adj, blocked, a, w)
  {
    var p :| PathFromTo(adj, blocked, p, a, u);
    ExtendPath(adj, blocked, p, w);
    assert PathFromTo(adj, blocked, p + [w], a, w);
  }

  /**
   A set that holds `a` and is closed under steps holds every cell reachable
   from `a`: the completeness half of a breadth- or best-first search.
   */
  lemma {:induction false} ClosedSetHoldsPath(adj: Lists, blocked: set<Pos>, s: set<Pos>, p: seq<Pos>)
    requires IsPath(adj, blocked, p) && p[0] in s
    requires forall u, w :: u in s && Step(adj, blocked, u, w) ==> w in s
    ensures p[|p| - 1] in s
  {
    var i := 0;
    while i < |p| - 1
      invariant 0 <= i < |p| && p[i] in s
    {
      assert Step(adj, blocked, p[i], p[i + 1]);
      i := i + 1;
    }
  }

  /** Lists that are complete turn steps into orthogonal moves onto unblocked cells. */
  lemma {:induction false} CompleteStep(adj: Lists, blocked: set<Pos>, u: Pos, w: Pos)
    requires Complete(adj) && InBounds(u)
    ensures Step(adj, blocked, u, w) <==> Adjacent(u, w) && w !in blocked
  {
  }

  /** Every route over complete lists takes at least the Manhattan distance in steps. */
  lemma {:induction false} RouteAtLeastManhattan(lists: Lists, p: seq<Pos>)
    requires Complete(lists) && IsPath(lists, {}, p)
    ensures Manhattan(p[0], p[|p| - 1]) <= |p| - 1
  {
    var i := 0;
    while i < |p| - 1
      invariant 0 <= i < |p| && Manhattan(p[0], p[i]) <= i
    {
      assert Step(lists, {}, p[i], p[i + 1]);
      StepManhattan(p[0], p[i], p[i + 1]);
      i := i + 1;
    }
  }

  /** Two graphs with the same steps have the same routes. */
  lemma {:induction false} SameStepsSameRoutes(adj: Lists, blocked: set<Pos>, adj': Lists, blocked': set<Pos>, a: Pos, b: Pos)
    requires forall u, w :: Step(adj, blocked, u, w) <==> Step(adj', blocked', u, w)
    ensures Reachable(adj, blocked, a, b) <==> Reachable(adj', blocked', a, b)
    ensures forall n: nat :: Distance(adj, blocked, a, b, n) <==> Distance(adj', blocked', a, b, n)
  {
    forall p | IsPath(adj, blocked, p)
      ensures IsPath(adj', blocked', p)
    {
      MoreStepsMoreRoutes(adj, blocked, adj', blocked', p);
    }
    forall p | IsPath(adj', blocked', p)
      ensures IsPath(adj, blocked, p)
    {
      MoreStepsMoreRoutes(adj', blocked', adj, blocked, p);
    }
    if Reachable(adj, blocked, a, b) {
      var p :| PathFromTo(adj, blocked, p, a, b);
      assert PathFromTo(adj', blocked', p, a, b);
    }
    if Reachable(adj', blocked', a, b) {
      var p :| PathFromTo(adj', blocked', p, a, b);
      assert PathFromTo(adj, blocked, p, a, b);
    }
  }

  /** Fewer blocked cells and more list entries can only add routes. */
  lemma {:induction false} MoreStepsMoreRoutes(adj: Lists, blocked: set<Pos>, adj': Lists, blocked': set<Pos>, p: seq<Pos>)
    requires forall u, w :: Step(adj, blocked, u, w) ==> Step(adj', blocked', u, w)
    requires IsPath(adj, blocked, p)
    ensures IsPath(adj', blocked', p)
  {
    forall i | 0 <= i < |p| - 1
      ensures Step(adj', blocked', p[i], p[i + 1])
    {
      assert Step(adj, blocked, p[i], p[i + 1]);
    }
  }

  /**
   Cutting out the loop between two visits of the same cell keeps a route
   from `a` to `b`; repeating that leaves a route that never revisits a cell.
   */
  lemma {:induction false} SimpleRoute(adj: Lists, blocked: set<Pos>, p: seq<Pos>, a: Pos, b: Pos) returns (q: seq<Pos>)
    requires PathFromTo(adj, blocked, p, a, b)
    ensures PathFromTo(adj, blocked, q, a, b) && |q| <= |p|
    ensures forall i, j :: 0 <= i < j < |q| ==> q[i] != q[j]
    decreases |p|
  {
    if i, j :| 0 <= i < j < |p| && p[i] == p[j] {
      var r := p[..i] + p[j..];
      forall k | 0 <= k < |r| - 1
        ensures Step(adj, blocked, r[k], r[k + 1])
      {
        if k < i - 1 {
          assert Step(adj, blocked, p[k], p[k + 1]);
        } else if k == i - 1 {
          assert Step(adj, blocked, p[i - 1], p[i]);
        } else {
          assert Step(adj, blocked, p[j + k - i], p[j + k - i + 1]);
        }
      }
      assert r[|r| - 1] == p[|p| - 1];
      q := SimpleRoute(adj, blocked, r, a, b);
    } else {
      q := p;
    }
  }

  /**
   When every step of one graph is a step of another onto `b` or a cell of
   `marks`, a route of the first can be chosen without repeats; it is then a
   route of the second whose inner cells all lie in `marks`.
   */
  lemma {:induction false} RouteThrough(adj: Lists, off: set<Pos>, blocked: set<Pos>, marks: set<Pos>, a: Pos, b: Pos)
    returns (q: seq<Pos>)
    requires Reachable(adj, off, a, b)
    requires forall u, w :: Step(adj, off, u, w) ==> Step(adj, blocked, u, w) && (w == b || w in marks)
    ensures PathFromTo(adj, blocked, q, a, b)
    ensures forall i, j :: 0 <= i < j < |q| ==> q[i] != q[j]
    ensures forall i :: 0 < i < |q| - 1 ==> q[i] in marks
  {
    var p :| PathFromTo(adj, off, p, a, b);
    q := SimpleRoute(adj, off, p, a, b);
    MoreStepsMoreRoutes(adj, off, adj, blocked, q);
    forall i | 0 < i < |q| - 1
      ensures q[i] in marks
    {
      assert Step(adj, off, q[i - 1], q[i]);
      assert q[i] != q[|q| - 1];
    }
  }

  /** A sequence without repeats has as many distinct elements as entries. */
  lemma {:induction false} DistinctCount(q: seq<Pos>)
    requires forall i, j :: 0 <= i < j < |q| ==> q[i] != q[j]
    ensures |set x | x in q| == |q|
  {
    if q != [] {
      DistinctCount(q[1..]);
      assert (set x | x in q) == {q[0]} + (set x | x in q[1..]);
    }
  }

  /** A route without repeats whose inner cells lie in `marks` has at most `|marks|` inner cells. */
  lemma {:induction false} InnerCount(q: seq<Pos>, marks: set<Pos>)
    requires |q| >= 2
    requires forall i, j :: 0 <= i < j < |q| ==> q[i] != q[j]
    requires forall i :: 0 < i < |q| - 1 ==> q[i] in marks
    ensures |q| - 2 <= |marks|
  {
    var mid := q[1..|q| - 1];
    DistinctCount(mid);
    var inner := set x | x in mid;
    assert inner <= marks;
    assert marks == inner + (marks - inner);
  }

  /**
   Under the same assumption as `RouteThrough`, with `a != b`: `b` can be
   reached in the second graph, and its distance `n` there is at most one
   more than the number of cells in `marks`.
   */
  lemma {:induction false} RouteBound(adj: Lists, off: set<Pos>, blocked: set<Pos>, marks: set<Pos>, a: Pos, b: Pos)
    requires a != b && Reachable(adj, off, a, b)
    requires forall u, w :: Step(adj, off, u, w) ==> Step(adj, blocked, u, w) && (w == b || w in marks)
    ensures Reachable(adj, blocked, a, b)
    ensures forall n: nat :: Distance(adj, blocked, a, b, n) ==> |marks| >= n - 1
  {
    var q := RouteThrough(adj, off, blocked, marks, a, b);
    InnerCount(q, marks);
  }
}
