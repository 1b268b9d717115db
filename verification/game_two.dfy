/**
 One round of the newest version (src/Shortest_Path_Game2.py). The player
 marks a route of cells from the green start to the red end; the round is
 scored against the solver's shortest path around the grey obstacles.
 */
module GameTwo {
  import opened Board
  import opened Adjacency
  import opened Paths
  import opened Chains
  import opened Dijkstra
  import opened RouteCheck
  import opened Placement

  /**
   The variables `start_the_game` keeps between events: the grid, the two
   end points, `block_counter`, `path_length_dijkstra` and the three flags.
   */
  datatype Round = Round(grid: Grid, start: Pos, end: Pos, counter: int, pathLength: int,
                         calculated: bool, ended: bool, wins: bool)

  /**
   What every event keeps: start and end are distinct, not adjacent, and
   neither wall nor mark; no cell is both a wall and a mark; the counter is
   the number of marked cells.
   */
  ghost predicate Inv(s: Round) {
    Sound(s.grid, s.start, s.end, s.counter)
  }

  ghost predicate Sound(g: Grid, start: Pos, end: Pos, counter: int) {
    && Valid(g) && InBounds(start) && InBounds(end)
    && start != end && !AreNeighbors(start, end)
    && !At(g, start).wall && !At(g, start).playerWall
    && !At(g, end).wall && !At(g, end).playerWall
    && (forall p :: InBounds(p) ==> !(At(g, p).wall && At(g, p).playerWall))
    && counter == |Marks(g)|
  }

  /**
   `start_the_game`: draw the start, redraw the end until it is neither the
   start nor next to it, then place `num` obstacle blocks avoiding both.
   None when the end draws run out first.
   */
  method Setup(start: Pos, endDraws: seq<Pos>, num: nat, anchors: seq<Pos>)
    returns (r: Option<Round>, blocks: seq<Pos>, used: nat)
    requires InBounds(start) && forall i :: 0 <= i < |endDraws| ==> InBounds(endDraws[i])
    requires 5 <= num <= 15
    requires forall i :: 0 <= i < |anchors| ==> AnchorOk(anchors[i])
    ensures r.None? <==> ChooseEnd(start, endDraws, true).None?
    ensures r.Some? ==> Inv(r.value)
    ensures r.Some? ==> r.value.start == start && r.value.end == endDraws[ChooseEnd(start, endDraws, true).value]
    ensures r.Some? ==> r.value.counter == 0 && Marks(r.value.grid) == {}
    ensures r.Some? ==> !r.value.calculated && !r.value.ended && !r.value.wins
    ensures r.Some? ==> Walls(r.value.grid) == Cover(blocks) && |Walls(r.value.grid)| == 4 * |blocks|
    ensures r.Some? ==> |blocks| <= num && used <= |anchors|
    ensures r.Some? ==> |blocks| < num ==> used == |anchors|
    ensures r.Some? ==> forall i :: 0 <= i < |blocks| ==> blocks[i] in anchors[..used]
    ensures r.None? ==> blocks == [] && used == 0
  {
    blocks, used := [], 0;
    var k := ChooseEnd(start, endDraws, true);
    if k.None? {
      r := None;
      return;
    }
    var end := endDraws[k.value];
    FreshIsBare();
    assert Acceptable(start, end, true);
    var g;
    g, blocks, used := Place(Fresh(), num, [start, end], anchors);
    PlacedSound(g, start, end, blocks);
    r := Some(Round(g, start, end, 0, 0, false, false, false));
  }

  /** Obstacles placed on a fresh grid away from both end points leave a sound round. */
  lemma {:induction false} PlacedSound(g: Grid, start: Pos, end: Pos, blocks: seq<Pos>)
    requires InBounds(start) && InBounds(end) && Acceptable(start, end, true)
    requires Walls(Fresh()) == {} && Marks(Fresh()) == {}
    requires Valid(g) && Walls(g) == Walls(Fresh()) + Cover(blocks) && Marks(g) == Marks(Fresh())
    requires forall q :: q in Walls(g) - Walls(Fresh()) ==> q !in [start, end]
    ensures Sound(g, start, end, 0) && Walls(g) == Cover(blocks)
  {
    assert start !in Walls(g) && end !in Walls(g);
    BareOfMarks(g, start, end);
  }

  /** A grid without marks whose end points are free of walls is sound with a zero counter. */
  lemma {:induction false} BareOfMarks(g: Grid, start: Pos, end: Pos)
    requires Valid(g) && InBounds(start) && InBounds(end)
    requires start != end && !AreNeighbors(start, end)
    requires Marks(g) == {} && start !in Walls(g) && end !in Walls(g)
    ensures Sound(g, start, end, 0)
  {
    forall p | InBounds(p)
      ensures !At(g, p).playerWall
    {
      assert p !in Marks(g);
    }
  }

  /** A left-click may mark `p`: on the grid, neither start nor end, and no obstacle. */
  predicate Markable(s: Round, p: Pos)
    requires Valid(s.grid)
  {
    InBounds(p) && p != s.start && p != s.end && !At(s.grid, p).wall
  }

  /**
   Left-click on `p`: an unmarked markable cell becomes marked and the
   counter goes up; every other click changes nothing.
   */
  function Mark(s: Round, p: Pos): (r: Round)
    requires Inv(s)
    ensures Inv(r)
    ensures Marks(r.grid) == if Markable(s, p) then Marks(s.grid) + {p} else Marks(s.grid)
    ensures Walls(r.grid) == Walls(s.grid)
    ensures forall q :: InBounds(q) && q != p ==> At(r.grid, q) == At(s.grid, q)
    ensures r.start == s.start && r.end == s.end && r.pathLength == s.pathLength
    ensures r.calculated == s.calculated && r.ended == s.ended && r.wins == s.wins
  {
    if Markable(s, p) && !At(s.grid, p).playerWall then
      var c := At(s.grid, p).(playerWall := true);
      MarkKeeps(s.grid, s.start, s.end, s.counter, p);
      s.(grid := Update(s.grid, p, c), counter := s.counter + 1)
    else
      AlreadyMarked(s, p);
      s
  }

  /** A markable cell that already holds a mark is among the marks. */
  lemma {:induction false} AlreadyMarked(s: Round, p: Pos)
    requires Inv(s) && !(Markable(s, p) && !At(s.grid, p).playerWall)
    ensures Markable(s, p) ==> Marks(s.grid) + {p} == Marks(s.grid)
  {
    if Markable(s, p) {
      assert p in Marks(s.grid);
    }
  }

  lemma {:induction false} MarkKeeps(g: Grid, start: Pos, end: Pos, counter: int, p: Pos)
    requires Sound(g, start, end, counter)
    requires InBounds(p) && p != start && p != end && !At(g, p).wall && !At(g, p).playerWall
    ensures Sound(Update(g, p, At(g, p).(playerWall := true)), start, end, counter + 1)
    ensures Marks(Update(g, p, At(g, p).(playerWall := true))) == Marks(g) + {p}
    ensures Walls(Update(g, p, At(g, p).(playerWall := true))) == Walls(g)
  {
    var c := At(g, p).(playerWall := true);
    var g' := Update(g, p, c);
    MarksAfterUpdate(g, p, c);
    WallsAfterUpdate(g, p, c);
    assert p !in Marks(g);
    assert |Marks(g')| == |Marks(g)| + 1;
    forall q | InBounds(q)
      ensures !(At(g', q).wall && At(g', q).playerWall)
    {
      if q != p {
        assert At(g', q) == At(g, q);
      }
    }
  }

  lemma {:induction false} UnmarkKeeps(g: Grid, start: Pos, end: Pos, counter: int, p: Pos)
    requires Sound(g, start, end, counter)
    requires InBounds(p) && p != start && p != end && At(g, p).playerWall
    ensures Sound(Update(g, p, Cell(false, false)), start, end, counter - 1)
    ensures Marks(Update(g, p, Cell(false, false))) == Marks(g) - {p}
    ensures Walls(Update(g, p, Cell(false, false))) == Walls(g)
  {
    var g' := Update(g, p, Cell(false, false));
    MarksAfterUpdate(g, p, Cell(false, false));
    WallsAfterUpdate(g, p, Cell(false, false));
    assert p in Marks(g) && p !in Walls(g);
    assert |Marks(g')| == |Marks(g)| - 1;
    forall q | InBounds(q)
      ensures !(At(g', q).wall && At(g', q).playerWall)
    {
      if q != p {
        assert At(g', q) == At(g, q);
      }
    }
  }

  /**
   Right-click on `p`: a marked cell other than start and end loses its mark
   (and its wall flag, which a marked cell never has) and the counter goes
   down. Since start and end are never marked, the marks lose exactly `p`.
   */
  function Unmark(s: Round, p: Pos): (r: Round)
    requires Inv(s)
    ensures Inv(r)
    ensures Marks(r.grid) == Marks(s.grid) - {p}
    ensures Walls(r.grid) == Walls(s.grid)
    ensures forall q :: InBounds(q) && q != p ==> At(r.grid, q) == At(s.grid, q)
    ensures r.start == s.start && r.end == s.end && r.pathLength == s.pathLength
    ensures r.calculated == s.calculated && r.ended == s.ended && r.wins == s.wins
  {
    if InBounds(p) && p != s.start && p != s.end && At(s.grid, p).playerWall then
      UnmarkKeeps(s.grid, s.start, s.end, s.counter, p);
      s.(grid := Update(s.grid, p, Cell(false, false)), counter := s.counter - 1)
    else
      NoMarkToClear(s, p);
      s
  }

  /** A cell that is not a removable mark is not among the marks. */
  lemma {:induction false} NoMarkToClear(s: Round, p: Pos)
    requires Inv(s) && !(InBounds(p) && p != s.start && p != s.end && At(s.grid, p).playerWall)
    ensures Marks(s.grid) - {p} == Marks(s.grid)
  {
    if InBounds(p) {
      assert p !in Marks(s.grid);
    }
  }

  /** How an evaluation ends: the route check fails, the solver fails, or the round is scored. */
  datatype Verdict = InvalidRoute | NoPath | Decided

  /**
   Space: reset the shown length, check the player's route, and only when
   it is valid run the solver on the obstacle walls; on success the length
   is the number of predecessor links less one, and the player wins with no
   more marks than that.
   */
  method Evaluate(s: Round) returns (r: Round, v: Verdict)
    requires Inv(s)
    ensures Inv(r) && r.grid == s.grid && r.start == s.start && r.end == s.end && r.counter == s.counter
    ensures v == InvalidRoute <==> !Reachable(GridLists(), OffRoute(s.grid, s.end), s.start, s.end)
    ensures v != NoPath
    ensures v == InvalidRoute ==> r == s.(pathLength := 0)
    ensures v == Decided ==> r.pathLength >= 1 && Distance(GridLists(), Walls(s.grid), s.start, s.end, r.pathLength + 1)
    ensures v == Decided ==> r.calculated && r.ended && (r.wins <==> s.counter <= r.pathLength)
    ensures v == Decided ==> s.counter >= r.pathLength && (r.wins <==> s.counter == r.pathLength)
  {
    var ok := PlayerPathValid(s.grid, s.start, s.end);
    if !ok {
      r, v := s.(pathLength := 0), InvalidRoute;
      return;
    }
    ScoreBounds(s);
    r, v := Score(s);
  }

  /** The solver half of `Evaluate`, reached once the route check has passed. */
  method Score(s: Round) returns (r: Round, v: Verdict)
    requires Valid(s.grid) && InBounds(s.start)
    requires forall n: nat :: Distance(GridLists(), Walls(s.grid), s.start, s.end, n) ==> n >= 2 && s.counter >= n - 1
    ensures r.grid == s.grid && r.start == s.start && r.end == s.end && r.counter == s.counter
    ensures v != InvalidRoute
    ensures v == NoPath <==> !Reachable(GridLists(), Walls(s.grid), s.start, s.end)
    ensures v != Decided ==> r == s.(pathLength := 0)
    ensures v == Decided ==> r.pathLength >= 1 && Distance(GridLists(), Walls(s.grid), s.start, s.end, r.pathLength + 1)
    ensures v == Decided ==> r.calculated && r.ended && (r.wins <==> s.counter <= r.pathLength)
    ensures v == Decided ==> s.counter >= r.pathLength
  {
    var found, links := Shortest(s.grid, s.start, s.end);
    if !found {
      r, v := s.(pathLength := 0), NoPath;
      return;
    }
    var len := links - 1;
    assert Distance(GridLists(), Walls(s.grid), s.start, s.end, len + 1);
    v := Decided;
    r := s.(pathLength := len, calculated := true, ended := true, wins := s.counter <= len);
  }

  /**
   `dijkstra(grid, start, end)` followed by `reconstruct_path(end)` in the
   newest version: the lists built on the wall-free grid, the obstacle walls
   skipped, and the number of predecessor links from `end` returned.
   */
  method Shortest(g: Grid, start: Pos, end: Pos) returns (found: bool, links: nat)
    requires Valid(g) && InBounds(start)
    ensures found <==> Reachable(GridLists(), Walls(g), start, end)
    ensures found ==> Distance(GridLists(), Walls(g), start, end, links)
  {
    var dist, prev;
    found, dist, prev := Solve(GridLists(), Walls(g), start, end);
    links := 0;
    if found {
      links := Walk(dist, prev, start, end, map[start := Green, end := Red], {Green, Red}, Yellow).0;
    }
  }

  /**
   What `Score` needs about the solver's length once the route is valid: at
   least two, and no more than one above the counter.
   */
  lemma {:induction false} ScoreBounds(s: Round)
    requires Inv(s) && Reachable(GridLists(), OffRoute(s.grid, s.end), s.start, s.end)
    ensures Reachable(GridLists(), Walls(s.grid), s.start, s.end)
    ensures forall n: nat :: Distance(GridLists(), Walls(s.grid), s.start, s.end, n) ==> n >= 2 && s.counter >= n - 1
  {
    RouteNeedsMarks(s);
    forall n: nat | Distance(GridLists(), Walls(s.grid), s.start, s.end, n)
      ensures n >= 2
    {
      FarApart(s, n);
    }
  }

  /** Start and end are neither equal nor adjacent, so every path between them takes two steps or more. */
  lemma {:induction false} FarApart(s: Round, n: nat)
    requires Inv(s) && Distance(GridLists(), Walls(s.grid), s.start, s.end, n)
    ensures n >= 2
  {
    var p :| PathFromTo(GridLists(), Walls(s.grid), p, s.start, s.end) && |p| - 1 == n;
  }

  /** Every step of the player's route is a step the solver may take, onto the end or a marked cell. */
  lemma {:induction false} RouteStepsAreSolverSteps(s: Round)
    requires Inv(s)
    ensures forall u, w :: Step(GridLists(), OffRoute(s.grid, s.end), u, w) ==>
      Step(GridLists(), Walls(s.grid), u, w) && (w == s.end || w in Marks(s.grid))
  {
    forall u, w | Step(GridLists(), OffRoute(s.grid, s.end), u, w)
      ensures Step(GridLists(), Walls(s.grid), u, w) && (w == s.end || w in Marks(s.grid))
    {
    }
  }

  /**
   A valid route passes through at least `n - 1` marked cells when the
   shortest solver path takes `n` steps, so the counter never beats the
   solver's length and a win under the `<=` rule is always a tie. In
   particular a valid route is a solver path, so after a valid route check
   the solver always succeeds.
   */
  lemma {:induction false} RouteNeedsMarks(s: Round)
    requires Inv(s) && Reachable(GridLists(), OffRoute(s.grid, s.end), s.start, s.end)
    ensures Reachable(GridLists(), Walls(s.grid), s.start, s.end)
    ensures forall n: nat :: Distance(GridLists(), Walls(s.grid), s.start, s.end, n) ==> s.counter >= n - 1
  {
    RouteStepsAreSolverSteps(s);
    RouteBound(GridLists(), OffRoute(s.grid, s.end), Walls(s.grid), Marks(s.grid), s.start, s.end);
  }
}
