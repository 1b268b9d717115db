/**
 The first version (Shortest_Path_Game.py): a free-form editor in which
 left-clicks place the start, then the end, then walls; right-clicks clear a
 cell and take away its role; Space runs the solver around the walls. The
 nodes keep the distances and predecessor links of the last search until
 `R` builds a new grid, and the next search starts from them.
 */
module Prototype {
  import opened Board
  import opened Adjacency
  import opened Paths
  import opened Chains
  import opened OlderDijkstra

  /**
   The variables of `main`, with what the nodes hold: the grid, every
   node's neighbour list, the distances and predecessor links the last
   search left, and the two optional end points.
   */
  datatype Screen = Screen(grid: Grid, lists: Lists, dist: map<Pos, nat>, prev: map<Pos, Pos>,
                           start: Option<Pos>, end: Option<Pos>)

  /** Both end points, when set, are on the grid and differ. */
  predicate Ends(start: Option<Pos>, end: Option<Pos>) {
    && (start.Some? ==> InBounds(start.value))
    && (end.Some? ==> InBounds(end.value))
    && (start.Some? && end.Some? ==> start.value != end.value)
  }

  ghost predicate Inv(s: Screen) {
    Valid(s.grid) && Complete(s.lists) && Ends(s.start, s.end)
  }

  /** The screen at program start and after `R`: a fresh grid, lists filled once, nothing searched, no end points. */
  function Blank(): (s: Screen)
    ensures Inv(s) && s.start.None? && s.end.None?
    ensures Walls(s.grid) == {} && s.dist == map[] && s.prev == map[]
  {
    FreshListsComplete();
    FreshIsBare();
    Screen(Fresh(), AppendLists(map[], Fresh()), map[], map[], None, None)
  }

  /**
   Left-click on `p`: the first free role is given to `p` (start before
   end) when `p` does not hold the other one; with both roles taken, `p`
   becomes a wall unless it is start or end. Exactly one of the three can
   happen, and the start and end never coincide.
   */
  function LeftClick(s: Screen, p: Pos): (r: Screen)
    requires Inv(s) && InBounds(p)
    ensures Inv(r) && r.lists == s.lists && r.dist == s.dist && r.prev == s.prev
    ensures s.start.None? && s.end != Some(p) ==> r == s.(start := Some(p))
    ensures s.start.Some? && s.end.None? && s.start != Some(p) ==> r == s.(end := Some(p))
    ensures s.start.Some? && s.end.Some? && s.start != Some(p) && s.end != Some(p) ==>
      r.start == s.start && r.end == s.end && Walls(r.grid) == Walls(s.grid) + {p} &&
      forall q :: InBounds(q) && q != p ==> At(r.grid, q) == At(s.grid, q)
    ensures s.start == Some(p) || s.end == Some(p) ==> r == s
  {
    if s.start.None? && s.end != Some(p) then
      s.(start := Some(p))
    else if s.end.None? && s.start != Some(p) then
      s.(end := Some(p))
    else if s.end != Some(p) && s.start != Some(p) then
      var c := At(s.grid, p).(wall := true);
      WallsAfterUpdate(s.grid, p, c);
      s.(grid := Update(s.grid, p, c))
    else
      s
  }

  /**
   Right-click on `p`: its wall flag is cleared whatever it holds, and if it
   was the start or the end it loses that role; the other role is kept.
   */
  function RightClick(s: Screen, p: Pos): (r: Screen)
    requires Inv(s) && InBounds(p)
    ensures Inv(r) && r.lists == s.lists && r.dist == s.dist && r.prev == s.prev
    ensures Walls(r.grid) == Walls(s.grid) - {p}
    ensures forall q :: InBounds(q) && q != p ==> At(r.grid, q) == At(s.grid, q)
    ensures r.start != Some(p) && r.end != Some(p)
    ensures s.start != Some(p) ==> r.start == s.start
    ensures s.end != Some(p) ==> r.end == s.end
  {
    var c := At(s.grid, p).(wall := false);
    WallsAfterUpdate(s.grid, p, c);
    var g := Update(s.grid, p, c);
    if s.start == Some(p) then s.(grid := g, start := None)
    else if s.end == Some(p) then s.(grid := g, end := None)
    else s.(grid := g)
  }

  /** Two complete sets of lists allow the same steps. */
  lemma {:induction false} CompleteListsAgree(m: Lists, m': Lists, blocked: set<Pos>)
    requires Complete(m) && Complete(m')
    ensures forall u, w :: Step(m, blocked, u, w) <==> Step(m', blocked, u, w)
  {
    forall u, w
      ensures Step(m, blocked, u, w) <==> Step(m', blocked, u, w)
    {
      if InBounds(u) {
        CompleteStep(m, blocked, u, w);
        CompleteStep(m', blocked, u, w);
      }
    }
  }

  /** Complete lists have the routes of the grid's own adjacency. */
  lemma {:induction false} GridRoutes(lists: Lists, blocked: set<Pos>, start: Pos, end: Pos)
    requires Complete(lists)
    ensures Reachable(lists, blocked, start, end) <==> Reachable(GridLists(), blocked, start, end)
    ensures forall n: nat :: Distance(lists, blocked, start, end, n) <==> Distance(GridLists(), blocked, start, end, n)
  {
    CompleteListsAgree(lists, GridLists(), blocked);
    SameStepsSameRoutes(lists, blocked, GridLists(), blocked, start, end);
  }

  /**
   Space with both end points set: every node appends its neighbours, the
   search runs around the walls over whatever the nodes hold, and its
   distances and links stay in the nodes; without both end points nothing
   happens. A reported success is always right. Only when the nodes hold
   nothing yet, after start-up or `R`, is a failure right too, and then a
   success comes with the shortest distance.
   */
  function Space(s: Screen): (r: (Screen, bool))
    requires Inv(s)
    ensures Inv(r.0) && r.0.grid == s.grid && r.0.start == s.start && r.0.end == s.end
    ensures s.start.None? || s.end.None? ==> r == (s, false)
    ensures s.start.Some? && s.end.Some? ==>
      && r.0.lists == AppendLists(s.lists, s.grid)
      && (r.1, r.0.dist, r.0.prev) == Search(r.0.lists, Walls(s.grid), s.start.value, s.end.value, s.dist, s.prev)
    ensures s.start.Some? && s.end.Some? && r.1 ==> Reachable(GridLists(), Walls(s.grid), s.start.value, s.end.value)
    ensures s.start.Some? && s.end.Some? && s.dist == map[] && s.prev == map[] ==>
      && Linked(r.0.dist, r.0.prev, s.start.value)
      && (r.1 <==> Reachable(GridLists(), Walls(s.grid), s.start.value, s.end.value))
      && (r.1 ==> s.end.value in r.0.dist
                  && Distance(GridLists(), Walls(s.grid), s.start.value, s.end.value, r.0.dist[s.end.value]))
  {
    if s.start.None? || s.end.None? then (s, false)
    else
      var start, end := s.start.value, s.end.value;
      AppendKeepsComplete(s.lists, s.grid);
      var lists := AppendLists(s.lists, s.grid);
      CompleteIsOnGrid(lists);
      SearchFresh(lists, Walls(s.grid), start, end);
      GridRoutes(lists, Walls(s.grid), start, end);
      var t := Search(lists, Walls(s.grid), start, end, s.dist, s.prev);
      (s.(lists := lists, dist := t.1, prev := t.2), t.0)
  }

  /**
   Space with every node's distance and link reset before the search, as
   the newest version does: the answer is right whatever was searched
   before, and a success comes with the shortest distance.
   */
  function ResetSpace(s: Screen): (r: (Screen, bool))
    requires Inv(s)
    ensures Inv(r.0) && r.0.grid == s.grid && r.0.start == s.start && r.0.end == s.end
    ensures s.start.None? || s.end.None? ==> !r.1
    ensures s.start.Some? && s.end.Some? ==>
      && Linked(r.0.dist, r.0.prev, s.start.value)
      && (r.1 <==> Reachable(GridLists(), Walls(s.grid), s.start.value, s.end.value))
      && (r.1 ==> s.end.value in r.0.dist
                  && Distance(GridLists(), Walls(s.grid), s.start.value, s.end.value, r.0.dist[s.end.value]))
  {
    Space(s.(dist := map[], prev := map[]))
  }

  /**
   After a reset Space that finds `end`, the `while current.previous` walk
   from `end` ends, at `start`.
   */
  lemma ResetWalkEnds(s: Screen)
    requires Inv(s)
    ensures ResetSpace(s).1 ==> !Endless(ResetSpace(s).0.prev, s.end.value)
  {
    var r := ResetSpace(s);
    if r.1 {
      LinkedWalkEnds(r.0.dist, r.0.prev, s.start.value, s.end.value);
    }
  }

  /** On complete lists without walls, the search from (0,0) to (0,2) links (0,2) to (0,1). */
  lemma {:induction false} FirstSearchLinksEnd(lists: Lists)
    requires Complete(lists)
    ensures var r := Search(lists, {}, Pos(0, 0), Pos(0, 2), map[], map[]);
      Pos(0, 2) in r.2 && r.2[Pos(0, 2)] == Pos(0, 1)
  {
    var a, b, c := Pos(0, 0), Pos(0, 2), Pos(0, 1);
    CompleteIsOnGrid(lists);
    CompleteStep(lists, {}, a, c);
    CompleteStep(lists, {}, c, b);
    var p := [a, c, b];
    assert PathFromTo(lists, {}, p, a, b);
    SearchFreshWithin(lists, {}, a, b, p);
    var r := Search(lists, {}, a, b, map[], map[]);
    RowLink(lists, r.1, r.2, 2);
  }

  /**
   A cell (0, col) the search from (0,0) reached within `col` steps is linked
   to (0, col - 1): the link is one step nearer the start, and no other
   neighbour is.
   */
  lemma {:induction false} RowLink(lists: Lists, dist: map<Pos, nat>, prev: map<Pos, Pos>, col: int)
    requires Complete(lists) && 1 <= col < COLS
    requires Linked(dist, prev, Pos(0, 0)) && StepLinked(lists, {}, prev)
    requires Pos(0, col) in dist && dist[Pos(0, col)] <= col
    ensures Pos(0, col) in prev && prev[Pos(0, col)] == Pos(0, col - 1)
  {
    var v := Pos(0, col);
    LinkNearer(lists, {}, dist, prev, Pos(0, 0), v);
    NeighborsAreTheFourSteps(prev[v], v);
  }

  /** On complete lists without walls, the search from (0,0) to (0,2) leaves (1,0) at distance 1 or less. */
  lemma {:induction false} FirstSearchReachesBelow(lists: Lists)
    requires Complete(lists)
    ensures var r := Search(lists, {}, Pos(0, 0), Pos(0, 2), map[], map[]);
      Pos(1, 0) in r.1 && r.1[Pos(1, 0)] <= 1
  {
    CompleteIsOnGrid(lists);
    CompleteStep(lists, {}, Pos(0, 0), Pos(1, 0));
    assert Adjacent(Pos(0, 0), Pos(1, 0));
    FirstPassNear(lists, {}, Pos(0, 0), Pos(0, 2), map[], map[], Pos(1, 0));
  }

  /**
   On complete lists with a wall at (0,1), a search from (0,0) to (0,2) over
   cells that already hold (1,0) at distance 1 or less pops (0,0), has
   nothing to improve, and gives up, leaving every link as it was.
   */
  lemma {:induction false} SecondSearchGivesUp(lists: Lists, dist: map<Pos, nat>, prev: map<Pos, Pos>)
    requires Complete(lists) && Pos(1, 0) in dist && dist[Pos(1, 0)] <= 1
    ensures Search(lists, {Pos(0, 1)}, Pos(0, 0), Pos(0, 2), dist, prev) == (false, dist[Pos(0, 0) := 0], prev)
  {
    var a := Pos(0, 0);
    CompleteIsOnGrid(lists);
    forall w | Step(lists, {Pos(0, 1)}, a, w) && w != a
      ensures w in dist && dist[w] <= 1
    {
      CompleteStep(lists, {Pos(0, 1)}, a, w);
      NeighborsAreTheFourSteps(a, w);
    }
    SearchIdle(lists, {Pos(0, 1)}, a, Pos(0, 2), dist, prev);
  }

  /** With a wall at (0,1), (0,2) is still reachable from (0,0), round through the second row. */
  lemma {:induction false} RoundTheWall(lists: Lists)
    requires Complete(lists)
    ensures Reachable(lists, {Pos(0, 1)}, Pos(0, 0), Pos(0, 2))
  {
    var w := {Pos(0, 1)};
    CompleteStep(lists, w, Pos(0, 0), Pos(1, 0));
    CompleteStep(lists, w, Pos(1, 0), Pos(1, 1));
    CompleteStep(lists, w, Pos(1, 1), Pos(1, 2));
    CompleteStep(lists, w, Pos(1, 2), Pos(0, 2));
    assert PathFromTo(lists, w, [Pos(0, 0), Pos(1, 0), Pos(1, 1), Pos(1, 2), Pos(0, 2)], Pos(0, 0), Pos(0, 2));
  }

  /** Start (0,0) and end (0,2) on a blank screen. */
  lemma {:induction false} PlaceCorner(s0: Screen)
    requires Inv(s0) && s0.start.None? && s0.end.None?
    requires Walls(s0.grid) == {} && s0.dist == map[] && s0.prev == map[]
    ensures var s1 := LeftClick(LeftClick(s0, Pos(0, 0)), Pos(0, 2));
      && s1.start == Some(Pos(0, 0)) && s1.end == Some(Pos(0, 2))
      && Walls(s1.grid) == {} && s1.dist == map[] && s1.prev == map[]
  {
  }

  /** The first Space of the scenario below links (0,2) to (0,1) and puts (1,0) at distance 1 or less. */
  lemma {:induction false} FirstSpace(s1: Screen)
    requires Inv(s1) && s1.start == Some(Pos(0, 0)) && s1.end == Some(Pos(0, 2))
    requires Walls(s1.grid) == {} && s1.dist == map[] && s1.prev == map[]
    ensures var t := Space(s1).0;
      && t.start == s1.start && t.end == s1.end && Walls(t.grid) == {}
      && Pos(0, 2) in t.prev && t.prev[Pos(0, 2)] == Pos(0, 1)
      && Pos(1, 0) in t.dist && t.dist[Pos(1, 0)] <= 1
  {
    FirstSearchLinksEnd(Space(s1).0.lists);
    FirstSearchReachesBelow(Space(s1).0.lists);
  }

  /** The wall at (0,1), with both end points set. */
  lemma {:induction false} WallBetween(t: Screen)
    requires Inv(t) && t.start == Some(Pos(0, 0)) && t.end == Some(Pos(0, 2)) && Walls(t.grid) == {}
    ensures var s2 := LeftClick(t, Pos(0, 1));
      && s2.start == t.start && s2.end == t.end && Walls(s2.grid) == {Pos(0, 1)}
      && s2.dist == t.dist && s2.prev == t.prev
  {
  }

  /** The second Space of the scenario below gives up and keeps the end's link. */
  lemma {:induction false} SecondSpace(s2: Screen)
    requires Inv(s2) && s2.start == Some(Pos(0, 0)) && s2.end == Some(Pos(0, 2)) && Walls(s2.grid) == {Pos(0, 1)}
    requires Pos(1, 0) in s2.dist && s2.dist[Pos(1, 0)] <= 1
    ensures !Space(s2).1 && Space(s2).0.prev == s2.prev
  {
    var r := Space(s2);
    CompleteIsOnGrid(r.0.lists);
    SecondSearchGivesUp(r.0.lists, s2.dist, s2.prev);
    var t := Search(r.0.lists, Walls(s2.grid), Pos(0, 0), Pos(0, 2), s2.dist, s2.prev);
    assert r.1 == t.0 && r.0.prev == t.2;
  }

  /** The reset Space of the scenario below finds the route round the wall. */
  lemma {:induction false} ResetSpaceFinds(s2: Screen)
    requires Inv(s2) && s2.start == Some(Pos(0, 0)) && s2.end == Some(Pos(0, 2)) && Walls(s2.grid) == {Pos(0, 1)}
    ensures Reachable(GridLists(), Walls(s2.grid), Pos(0, 0), Pos(0, 2)) && ResetSpace(s2).1
  {
    RoundTheWall(GridLists());
  }

  /**
   Start (0,0), end (0,2), Space; then a wall at (0,1) and Space again. The
   second search pops the start, finds its one open neighbour (1,0) already
   at distance 1, and gives up, although a route goes round the wall; the
   end keeps its link to the wall, which `reconstruct_path` then paints.
   The reset search finds the route.
   */
  lemma {:induction false} RepeatedSpaceMissesRoute(s1: Screen, s2: Screen)
    requires s1 == LeftClick(LeftClick(Blank(), Pos(0, 0)), Pos(0, 2))
    requires s2 == LeftClick(Space(s1).0, Pos(0, 1))
    ensures s2.start == Some(Pos(0, 0)) && s2.end == Some(Pos(0, 2)) && Walls(s2.grid) == {Pos(0, 1)}
    ensures Reachable(GridLists(), Walls(s2.grid), Pos(0, 0), Pos(0, 2))
    ensures !Space(s2).1
    ensures Pos(0, 2) in Space(s2).0.prev && Space(s2).0.prev[Pos(0, 2)] == Pos(0, 1)
    ensures ResetSpace(s2).1
  {
    PlaceCorner(Blank());
    FirstSpace(s1);
    WallBetween(Space(s1).0);
    SecondSpace(s2);
    ResetSpaceFinds(s2);
  }

  /** On complete lists without walls, the search from (0,0) to (0,3) links (0,3) to (0,2). */
  lemma {:induction false} FirstSearchAlongRow(lists: Lists)
    requires Complete(lists)
    ensures var r := Search(lists, {}, Pos(0, 0), Pos(0, 3), map[], map[]);
      Pos(0, 3) in r.2 && r.2[Pos(0, 3)] == Pos(0, 2)
  {
    var a, b := Pos(0, 0), Pos(0, 3);
    CompleteIsOnGrid(lists);
    AlongRow(lists);
    SearchFreshWithin(lists, {}, a, b, [a, Pos(0, 1), Pos(0, 2), b]);
    var r := Search(lists, {}, a, b, map[], map[]);
    RowLink(lists, r.1, r.2, 3);
  }

  /** On complete lists without walls, (0,0) to (0,3) along the top row is a route. */
  lemma {:induction false} AlongRow(lists: Lists)
    requires Complete(lists)
    ensures PathFromTo(lists, {}, [Pos(0, 0), Pos(0, 1), Pos(0, 2), Pos(0, 3)], Pos(0, 0), Pos(0, 3))
  {
    CompleteStep(lists, {}, Pos(0, 0), Pos(0, 1));
    CompleteStep(lists, {}, Pos(0, 1), Pos(0, 2));
    CompleteStep(lists, {}, Pos(0, 2), Pos(0, 3));
  }

  /** Whatever a fresh search from (0,0) reaches lies at least its Manhattan distance away: (0,2) and (0,4) at 2 or more. */
  lemma {:induction false} FirstSearchFarFromStart(lists: Lists)
    requires Complete(lists)
    ensures var r := Search(lists, {}, Pos(0, 0), Pos(0, 3), map[], map[]);
      && (Pos(0, 2) in r.1 ==> r.1[Pos(0, 2)] >= 2)
      && (Pos(0, 4) in r.1 ==> r.1[Pos(0, 4)] >= 2)
  {
    var a, b := Pos(0, 0), Pos(0, 3);
    CompleteIsOnGrid(lists);
    SearchFreshLinked(lists, {}, a, b);
    var r := Search(lists, {}, a, b, map[], map[]);
    if Pos(0, 2) in r.1 {
      LinkedAtLeastManhattan(lists, {}, r.1, r.2, a, Pos(0, 2));
    }
    if Pos(0, 4) in r.1 {
      LinkedAtLeastManhattan(lists, {}, r.1, r.2, a, Pos(0, 4));
    }
  }

  /**
   On complete lists without walls, a search from (0,3) to (0,4) over cells
   where (0,3) links to (0,2) and both (0,2) and (0,4) are at distance 2 or
   more links (0,2) and (0,4) back to (0,3): the links from (0,4) circle.
   */
  lemma {:induction false} SecondSearchCircles(lists: Lists, dist: map<Pos, nat>, prev: map<Pos, Pos>)
    requires Complete(lists)
    requires Pos(0, 3) in prev && prev[Pos(0, 3)] == Pos(0, 2)
    requires Pos(0, 2) in dist ==> dist[Pos(0, 2)] >= 2
    requires Pos(0, 4) in dist ==> dist[Pos(0, 4)] >= 2
    ensures Endless(Search(lists, {}, Pos(0, 3), Pos(0, 4), dist, prev).2, Pos(0, 4))
  {
    var b, c, e := Pos(0, 3), Pos(0, 2), Pos(0, 4);
    CompleteIsOnGrid(lists);
    CompleteStep(lists, {}, b, c);
    CompleteStep(lists, {}, b, e);
    assert Adjacent(b, c) && Adjacent(b, e);
    SecondSearchLinks(lists, dist, prev);
    var links := Search(lists, {}, b, e, dist, prev).2;
    forall k: nat
      ensures Back(links, e, k) in links
    {
      BackStaysIn(links, {e, b, c}, e, k);
    }
  }

  /** The links of that search: (0,2) and (0,4) to (0,3), and (0,3) still to (0,2). */
  lemma {:induction false} SecondSearchLinks(lists: Lists, dist: map<Pos, nat>, prev: map<Pos, Pos>)
    requires OnGrid(lists) && Step(lists, {}, Pos(0, 3), Pos(0, 2)) && Step(lists, {}, Pos(0, 3), Pos(0, 4))
    requires Pos(0, 3) in prev && prev[Pos(0, 3)] == Pos(0, 2)
    requires Pos(0, 2) in dist ==> dist[Pos(0, 2)] >= 2
    requires Pos(0, 4) in dist ==> dist[Pos(0, 4)] >= 2
    ensures var links := Search(lists, {}, Pos(0, 3), Pos(0, 4), dist, prev).2;
      && Pos(0, 2) in links && links[Pos(0, 2)] == Pos(0, 3)
      && Pos(0, 4) in links && links[Pos(0, 4)] == Pos(0, 3)
      && Pos(0, 3) in links && links[Pos(0, 3)] == Pos(0, 2)
  {
    var b, c, e := Pos(0, 3), Pos(0, 2), Pos(0, 4);
    assert Improves(dist, c, 1) && Improves(dist, e, 1);
    SearchFirstPass(lists, {}, b, e, dist, prev);
  }

  /** Start (0,0) and end (0,3) on a blank screen. */
  lemma {:induction false} PlaceRow(s0: Screen)
    requires Inv(s0) && s0.start.None? && s0.end.None?
    requires Walls(s0.grid) == {} && s0.dist == map[] && s0.prev == map[]
    ensures var s1 := LeftClick(LeftClick(s0, Pos(0, 0)), Pos(0, 3));
      && s1.start == Some(Pos(0, 0)) && s1.end == Some(Pos(0, 3))
      && Walls(s1.grid) == {} && s1.dist == map[] && s1.prev == map[]
  {
  }

  /**
   What the first Space of the scenario below leaves: start (0,0) and end
   (0,3) on a grid without walls, (0,3) linked to (0,2), and (0,2) and
   (0,4), where reached, at distance 2 or more.
   */
  ghost predicate RowSearched(t: Screen) {
    && Inv(t) && t.start == Some(Pos(0, 0)) && t.end == Some(Pos(0, 3)) && Walls(t.grid) == {}
    && Pos(0, 3) in t.prev && t.prev[Pos(0, 3)] == Pos(0, 2)
    && (Pos(0, 2) in t.dist ==> t.dist[Pos(0, 2)] >= 2)
    && (Pos(0, 4) in t.dist ==> t.dist[Pos(0, 4)] >= 2)
  }

  /** The first Space of the scenario below. */
  lemma {:induction false} FirstSpaceAlongRow(s1: Screen)
    requires Inv(s1) && s1.start == Some(Pos(0, 0)) && s1.end == Some(Pos(0, 3))
    requires Walls(s1.grid) == {} && s1.dist == map[] && s1.prev == map[]
    ensures RowSearched(Space(s1).0)
  {
    FirstSearchAlongRow(Space(s1).0.lists);
    FirstSearchFarFromStart(Space(s1).0.lists);
  }

  /** Clearing both end points, then making the old end the start and its right neighbour the end. */
  lemma {:induction false} MoveEnds(t: Screen, s2: Screen, s3: Screen)
    requires Inv(t) && t.start == Some(Pos(0, 0)) && t.end == Some(Pos(0, 3)) && Walls(t.grid) == {}
    requires s2 == RightClick(RightClick(t, Pos(0, 0)), Pos(0, 3))
    requires s3 == LeftClick(LeftClick(s2, Pos(0, 3)), Pos(0, 4))
    ensures s2.start.None? && s2.end.None?
    ensures Inv(s3) && s3.start == Some(Pos(0, 3)) && s3.end == Some(Pos(0, 4)) && Walls(s3.grid) == {}
    ensures s3.dist == t.dist && s3.prev == t.prev
  {
  }

  /** The second Space of the scenario below leaves links from (0,4) that never reach an unlinked cell. */
  lemma {:induction false} SecondSpaceAlongRow(s3: Screen)
    requires Inv(s3) && s3.start == Some(Pos(0, 3)) && s3.end == Some(Pos(0, 4)) && Walls(s3.grid) == {}
    requires Pos(0, 3) in s3.prev && s3.prev[Pos(0, 3)] == Pos(0, 2)
    requires Pos(0, 2) in s3.dist ==> s3.dist[Pos(0, 2)] >= 2
    requires Pos(0, 4) in s3.dist ==> s3.dist[Pos(0, 4)] >= 2
    ensures Endless(Space(s3).0.prev, Pos(0, 4))
  {
    var r := Space(s3);
    SecondSearchCircles(r.0.lists, s3.dist, s3.prev);
    assert (r.1, r.0.dist, r.0.prev) == Search(r.0.lists, {}, Pos(0, 3), Pos(0, 4), s3.dist, s3.prev);
  }

  /** The moves and the second Space of the scenario below, after the first Space. */
  lemma {:induction false} MovedRow(t: Screen, s2: Screen, s3: Screen)
    requires RowSearched(t)
    requires s2 == RightClick(RightClick(t, Pos(0, 0)), Pos(0, 3))
    requires s3 == LeftClick(LeftClick(s2, Pos(0, 3)), Pos(0, 4))
    ensures s3.start == Some(Pos(0, 3)) && s3.end == Some(Pos(0, 4)) && Walls(s3.grid) == {}
    ensures Endless(Space(s3).0.prev, Pos(0, 4))
  {
    MoveEnds(t, s2, s3);
    SecondSpaceAlongRow(s3);
  }

  /** The scenario below, from the screen its first two clicks produce. */
  lemma {:induction false} RowScenario(s1: Screen, s2: Screen, s3: Screen)
    requires Inv(s1) && s1.start == Some(Pos(0, 0)) && s1.end == Some(Pos(0, 3))
    requires Walls(s1.grid) == {} && s1.dist == map[] && s1.prev == map[]
    requires s2 == RightClick(RightClick(Space(s1).0, Pos(0, 0)), Pos(0, 3))
    requires s3 == LeftClick(LeftClick(s2, Pos(0, 3)), Pos(0, 4))
    ensures s3.start == Some(Pos(0, 3)) && s3.end == Some(Pos(0, 4)) && Walls(s3.grid) == {}
    ensures Endless(Space(s3).0.prev, Pos(0, 4))
  {
    FirstSpaceAlongRow(s1);
    MovedRow(Space(s1).0, s2, s3);
  }

  /**
   Start (0,0), end (0,3), Space; then both cleared, (0,3) made the start,
   (0,4) the end, and Space again. The old start (0,3) still links back to
   (0,2), and the new search links (0,2) and (0,4) to (0,3): following the
   links from the end circles between (0,3) and (0,2), so the
   `while current.previous` loop of `reconstruct_path` never ends.
   */
  lemma {:induction false} RepeatedSpaceNeverEnds(s1: Screen, s2: Screen, s3: Screen)
    requires s1 == LeftClick(LeftClick(Blank(), Pos(0, 0)), Pos(0, 3))
    requires s2 == RightClick(RightClick(Space(s1).0, Pos(0, 0)), Pos(0, 3))
    requires s3 == LeftClick(LeftClick(s2, Pos(0, 3)), Pos(0, 4))
    ensures s3.start == Some(Pos(0, 3)) && s3.end == Some(Pos(0, 4)) && Walls(s3.grid) == {}
    ensures Endless(Space(s3).0.prev, Pos(0, 4))
  {
    PlaceRow(Blank());
    RowScenario(s1, s2, s3);
  }
}
