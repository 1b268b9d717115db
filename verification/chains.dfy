/**
 Solver scratch state and the predecessor walk (`reconstruct_path`).
 A tentative distance is a `nat` in `dist`; a cell absent from `dist` is
 unreached (the source's `float('inf')`). `prev` holds the predecessor link
 by coordinate (the source's `previous`).
 */
module Chains {
  import opened Board
  import opened Adjacency
  import opened Paths

  /** The colours `reconstruct_path` reads and writes. */
  datatype Colour = Green | Red | Yellow | Blue

  /**
   Every reached cell other than `start` has a predecessor whose distance is
   exactly one less; `start` is reached at distance 0 and has none.
   */
  predicate Linked(dist: map<Pos, nat>, prev: map<Pos, Pos>, start: Pos) {
    && start in dist && dist[start] == 0 && start !in prev
    && (forall v :: v in dist && v != start ==> v in prev)
    && (forall v :: v in prev ==> v in dist && prev[v] in dist && dist[v] == dist[prev[v]] + 1)
  }

  /** Every predecessor link is a step of the graph the solver searched. */
  predicate StepLinked(adj: Lists, blocked: set<Pos>, prev: map<Pos, Pos>) {
    forall v :: v in prev ==> Step(adj, blocked, prev[v], v)
  }

  /**
   The cells met when following predecessor links back from `v`, listed from
   `start` forwards. The walk ends because distances fall by one per link.
   */
  function Route(dist: map<Pos, nat>, prev: map<Pos, Pos>, start: Pos, v: Pos): (r: seq<Pos>)
    requires Linked(dist, prev, start) && v in dist
    ensures |r| == dist[v] + 1
    ensures r[0] == start && r[|r| - 1] == v
    ensures forall i :: 0 <= i < |r| ==> r[i] in dist && dist[r[i]] == i
    ensures forall i :: 0 < i < |r| ==> r[i] in prev && prev[r[i]] == r[i - 1]
    decreases dist[v]
  {
    if v in prev then Route(dist, prev, start, prev[v]) + [v] else [v]
  }

  /** Distances strictly increase along the route, so it never visits a cell twice. */
  lemma {:induction false} RouteDistinct(dist: map<Pos, nat>, prev: map<Pos, Pos>, start: Pos, v: Pos)
    requires Linked(dist, prev, start) && v in dist
    ensures forall i, j :: 0 <= i < j < |Route(dist, prev, start, v)| ==>
      Route(dist, prev, start, v)[i] != Route(dist, prev, start, v)[j]
  {
    var r := Route(dist, prev, start, v);
    forall i, j | 0 <= i < j < |r|
      ensures r[i] != r[j]
    {
      assert dist[r[i]] == i && dist[r[j]] == j;
    }
  }

  /**
   When every link is a step of the searched graph, the route is a path of that
   graph from `start` to `v` taking exactly `dist[v]` steps.
   */
  lemma {:induction false} RouteIsPath(adj: Lists, blocked: set<Pos>, dist: map<Pos, nat>, prev: map<Pos, Pos>, start: Pos, v: Pos)
    requires Linked(dist, prev, start) && StepLinked(adj, blocked, prev) && v in dist
    ensures PathFromTo(adj, blocked, Route(dist, prev, start, v), start, v)
    ensures |Route(dist, prev, start, v)| - 1 == dist[v]
    ensures Reachable(adj, blocked, start, v)
  {
    var r := Route(dist, prev, start, v);
    forall i | 0 <= i < |r| - 1
      ensures Step(adj, blocked, r[i], r[i + 1])
    {
      assert prev[r[i + 1]] == r[i];
    }
    assert PathFromTo(adj, blocked, r, start, v);
  }

  /** On complete lists no cell is linked at less than its Manhattan distance from `start`. */
  lemma {:induction false} LinkedAtLeastManhattan(adj: Lists, blocked: set<Pos>, dist: map<Pos, nat>, prev: map<Pos, Pos>,
                                                  start: Pos, v: Pos)
    requires Complete(adj) && Linked(dist, prev, start) && StepLinked(adj, blocked, prev) && v in dist
    ensures Manhattan(start, v) <= dist[v]
  {
    RouteIsPath(adj, blocked, dist, prev, start, v);
    var r := Route(dist, prev, start, v);
    MoreStepsMoreRoutes(adj, blocked, adj, {}, r);
    RouteAtLeastManhattan(adj, r);
  }

  /**
   On complete lists a cell linked at its Manhattan distance from `start`
   is linked to a grid neighbour one step nearer to `start`.
   */
  lemma {:induction false} LinkNearer(adj: Lists, blocked: set<Pos>, dist: map<Pos, nat>, prev: map<Pos, Pos>,
                                      start: Pos, v: Pos)
    requires Complete(adj) && Linked(dist, prev, start) && StepLinked(adj, blocked, prev)
    requires v in dist && v != start && dist[v] <= Manhattan(start, v)
    ensures v in prev && Adjacent(prev[v], v) && Manhattan(start, prev[v]) + 1 == Manhattan(start, v)
  {
    var u := prev[v];
    LinkedAtLeastManhattan(adj, blocked, dist, prev, start, u);
    assert Step(adj, blocked, u, v);
    StepManhattan(start, u, v);
  }

  /** The route of `v` extends the route of its predecessor, every cell of which is nearer to `start`. */
  lemma {:induction false} RouteDrop(dist: map<Pos, nat>, prev: map<Pos, Pos>, start: Pos, v: Pos)
    requires Linked(dist, prev, start) && v in prev
    ensures forall q :: q in Route(dist, prev, start, prev[v]) ==>
      q in Route(dist, prev, start, v) && q in dist && dist[q] < dist[v]
    ensures prev[v] in Route(dist, prev, start, prev[v])
  {
    var r := Route(dist, prev, start, prev[v]);
    assert Route(dist, prev, start, v) == r + [v];
    forall q | q in r
      ensures q in Route(dist, prev, start, v) && q in dist && dist[q] < dist[v]
    {
      var i :| 0 <= i < |r| && r[i] == q;
      assert Route(dist, prev, start, v)[i] == q;
    }
    assert r[|r| - 1] == prev[v];
  }

  /** The colour a walked cell ends up with: unchanged when it is protected, else `paint`. */
  function Repaint(colours: map<Pos, Colour>, q: Pos, keep: set<Colour>, paint: Colour): map<Pos, Colour> {
    if q in colours && colours[q] in keep then colours else colours[q := paint]
  }

  /**
   `reconstruct_path(end)`: step to the predecessor first, count the link,
   then paint the cell unless its colour is protected. Returns the number of
   links, which is the distance of `v`, and the new colours (`WalkPaints`).
   */
  function Walk(dist: map<Pos, nat>, prev: map<Pos, Pos>, start: Pos, v: Pos,
                colours: map<Pos, Colour>, keep: set<Colour>, paint: Colour): (r: (nat, map<Pos, Colour>))
    requires Linked(dist, prev, start) && v in dist
    ensures r.0 == dist[v]
    decreases dist[v]
  {
    if v in prev then
      var u := prev[v];
      var r := Walk(dist, prev, start, u, Repaint(colours, u, keep, paint), keep, paint);
      (r.0 + 1, r.1)
    else
      (0, colours)
  }

  /** `Walk` never uncolours a cell and never repaints a protected colour. */
  lemma {:induction false} WalkKeeps(dist: map<Pos, nat>, prev: map<Pos, Pos>, start: Pos, v: Pos,
                                     colours: map<Pos, Colour>, keep: set<Colour>, paint: Colour)
    requires Linked(dist, prev, start) && v in dist
    ensures forall q :: q in colours ==> q in Walk(dist, prev, start, v, colours, keep, paint).1
    ensures forall q :: q in colours && colours[q] in keep ==>
      Walk(dist, prev, start, v, colours, keep, paint).1[q] == colours[q]
    decreases dist[v]
  {
    if v in prev {
      WalkKeeps(dist, prev, start, prev[v], Repaint(colours, prev[v], keep, paint), keep, paint);
    }
  }

  /** `q` has a colour in `after` that it did not have in `before`. */
  predicate Recoloured(before: map<Pos, Colour>, after: map<Pos, Colour>, q: Pos) {
    q in after && (q !in before || after[q] != before[q])
  }

  /**
   `Walk` paints exactly the unprotected cells on the route before `v`: every
   cell whose colour changed is one of them, and every one of them ends up
   with the paint colour.
   */
  lemma {:induction false} WalkPaints(dist: map<Pos, nat>, prev: map<Pos, Pos>, start: Pos, v: Pos,
                                      colours: map<Pos, Colour>, keep: set<Colour>, paint: Colour)
    requires Linked(dist, prev, start) && v in dist
    ensures forall q :: Recoloured(colours, Walk(dist, prev, start, v, colours, keep, paint).1, q) ==>
      q in Route(dist, prev, start, v) && q != v && Walk(dist, prev, start, v, colours, keep, paint).1[q] == paint
    ensures forall q :: q in Route(dist, prev, start, v) && q != v && !(q in colours && colours[q] in keep) ==>
      q in Walk(dist, prev, start, v, colours, keep, paint).1 && Walk(dist, prev, start, v, colours, keep, paint).1[q] == paint
    decreases dist[v]
  {
    if v in prev {
      var u := prev[v];
      var c := Repaint(colours, u, keep, paint);
      var after := Walk(dist, prev, start, u, c, keep, paint).1;
      assert after == Walk(dist, prev, start, v, colours, keep, paint).1;
      RouteDrop(dist, prev, start, v);
      WalkPaints(dist, prev, start, u, c, keep, paint);
      WalkKeeps(dist, prev, start, u, c, keep, paint);
      forall q | Recoloured(colours, after, q)
        ensures q in Route(dist, prev, start, v) && q != v && after[q] == paint
      {
        if !Recoloured(c, after, q) {
          assert q == u;
        }
      }
      forall q | q in Route(dist, prev, start, v) && q != v && !(q in colours && colours[q] in keep)
        ensures q in after && after[q] == paint
      {
        assert Route(dist, prev, start, v) == Route(dist, prev, start, u) + [v];
        if q == u {
          assert u in c && c[u] == paint && !Recoloured(c, after, u);
        }
      }
    } else {
      assert Route(dist, prev, start, v) == [v];
    }
  }

  /** `Walk` leaves the colour of `v` itself alone: only cells before it on the route are painted. */
  lemma {:induction false} WalkSparesEnd(dist: map<Pos, nat>, prev: map<Pos, Pos>, start: Pos, v: Pos,
                                         colours: map<Pos, Colour>, keep: set<Colour>, paint: Colour)
    requires Linked(dist, prev, start) && v in dist && v in colours
    ensures v in Walk(dist, prev, start, v, colours, keep, paint).1
    ensures Walk(dist, prev, start, v, colours, keep, paint).1[v] == colours[v]
  {
    WalkKeeps(dist, prev, start, v, colours, keep, paint);
    WalkPaints(dist, prev, start, v, colours, keep, paint);
    if v in prev {
      RouteDrop(dist, prev, start, v);
    }
  }
}
