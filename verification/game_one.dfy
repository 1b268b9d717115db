/**
 One round of src/Shortest_Path_Game.py. The player's blocks are the `wall`
 flag itself, and the counter counts them. The neighbour lists only ever
 grow, and the first lists are built on a grid without walls, so every list
 holds all of its node's orthogonal cells for the rest of the round; the
 solver skips no neighbour for being a wall. Its distance is therefore the
 Manhattan distance, whatever the player has drawn.
 */
module GameOne {
  import opened Board
  import opened Adjacency
  import opened Paths
  import opened Chains
  import opened OlderDijkstra
  import opened Placement

  /**
   The variables `start_the_game` keeps between events: the grid with its
   neighbour lists, the two end points, `block_counter`,
   `path_length_dijkstra` and the three flags.
   */
  datatype Round = Round(grid: Grid, lists: Lists, start: Pos, end: Pos, counter: int, pathLength: int,
                         calculated: bool, ended: bool, wins: bool)

  /**
   What every event keeps: start and end are distinct and never walls, the
   lists are complete, and the counter is the number of walls.
   */
  ghost predicate Inv(s: Round) {
    Complete(s.lists) && Sound(s.grid, s.start, s.end, s.counter)
  }

  predicate Sound(g: Grid, start: Pos, end: Pos, counter: int) {
    && Valid(g) && InBounds(start) && InBounds(end) && start != end
    && !At(g, start).wall && !At(g, end).wall
    && counter == |Walls(g)|
  }

  /**
   `start_the_game`: a fresh grid, every node's list filled once, the start
   drawn and the end redrawn until it differs from the start. None when the
   end draws run out first.
   */
  function Setup(start: Pos, endDraws: seq<Pos>): (r: Option<Round>)
    requires InBounds(start) && forall i :: 0 <= i < |endDraws| ==> InBounds(endDraws[i])
    ensures r.None? <==> ChooseEnd(start, endDraws, false).None?
    ensures r.Some? ==> Inv(r.value) && r.value.start == start
    ensures r.Some? ==> r.value.end == endDraws[ChooseEnd(start, endDraws, false).value]
    ensures r.Some? ==> Walls(r.value.grid) == {} && r.value.counter == 0 && r.value.pathLength == 0
    ensures r.Some? ==> !r.value.calculated && !r.value.ended && !r.value.wins
  {
    match ChooseEnd(start, endDraws, false)
    case None => None
    case Some(k) =>
      FreshListsComplete();
      FreshIsBare();
      Some(Round(Fresh(), AppendLists(map[], Fresh()), start, endDraws[k], 0, 0, false, false, false))
  }

  /**
   Left-click on `p`: a cell that is neither start, end nor already a wall
   becomes a wall and the counter goes up.
   */
  function Click(s: Round, p: Pos): (r: Round)
    requires Inv(s) && InBounds(p)
    ensures Inv(r)
    ensures Walls(r.grid) == if p != s.start && p != s.end then Walls(s.grid) + {p} else Walls(s.grid)
    ensures forall q :: InBounds(q) && q != p ==> At(r.grid, q) == At(s.grid, q)
    ensures r.start == s.start && r.end == s.end && r.lists == s.lists
    ensures r.pathLength == s.pathLength && r.calculated == s.calculated && r.ended == s.ended && r.wins == s.wins
  {
    if p != s.start && p != s.end && !At(s.grid, p).wall then
      RaiseKeeps(s, p);
      s.(grid := Update(s.grid, p, At(s.grid, p).(wall := true)), counter := s.counter + 1)
    else
      WallStays(s, p);
      s
  }

  /** Clicking a wall again adds nothing. */
  lemma {:induction false} WallStays(s: Round, p: Pos)
    requires Sound(s.grid, s.start, s.end, s.counter) && InBounds(p) && (p != s.start && p != s.end ==> At(s.grid, p).wall)
    ensures p != s.start && p != s.end ==> Walls(s.grid) + {p} == Walls(s.grid)
  {
    WallMember(s.grid, p);
  }

  lemma {:induction false} RaiseKeeps(s: Round, p: Pos)
    requires Sound(s.grid, s.start, s.end, s.counter) && InBounds(p) && p != s.start && p != s.end && !At(s.grid, p).wall
    ensures Sound(Update(s.grid, p, At(s.grid, p).(wall := true)), s.start, s.end, s.counter + 1)
    ensures Walls(Update(s.grid, p, At(s.grid, p).(wall := true))) == Walls(s.grid) + {p}
  {
    var c := At(s.grid, p).(wall := true);
    WallsAfterUpdate(s.grid, p, c);
    assert p !in Walls(s.grid);
    assert |Walls(s.grid) + {p}| == |Walls(s.grid)| + 1;
  }

  /**
   Right-click on `p`: a wall other than start and end is cleared and the
   counter goes down. Start and end are never walls, so the walls lose
   exactly `p`.
   */
  function Unclick(s: Round, p: Pos): (r: Round)
    requires Inv(s) && InBounds(p)
    ensures Inv(r)
    ensures Walls(r.grid) == Walls(s.grid) - {p}
    ensures forall q :: InBounds(q) && q != p ==> At(r.grid, q) == At(s.grid, q)
    ensures r.start == s.start && r.end == s.end && r.lists == s.lists
    ensures r.pathLength == s.pathLength && r.calculated == s.calculated && r.ended == s.ended && r.wins == s.wins
  {
    if p != s.start && p != s.end && At(s.grid, p).wall then
      ClearKeeps(s, p);
      s.(grid := Update(s.grid, p, At(s.grid, p).(wall := false)), counter := s.counter - 1)
    else
      NoWallToClear(s, p);
      s
  }

  /** A cell that is not a removable wall is not among the walls. */
  lemma {:induction false} NoWallToClear(s: Round, p: Pos)
    requires Sound(s.grid, s.start, s.end, s.counter) && InBounds(p) && !(p != s.start && p != s.end && At(s.grid, p).wall)
    ensures Walls(s.grid) - {p} == Walls(s.grid)
  {
    WallMember(s.grid, p);
  }

  lemma {:induction false} ClearKeeps(s: Round, p: Pos)
    requires Sound(s.grid, s.start, s.end, s.counter) && InBounds(p) && p != s.start && p != s.end && At(s.grid, p).wall
    ensures Sound(Update(s.grid, p, At(s.grid, p).(wall := false)), s.start, s.end, s.counter - 1)
    ensures Walls(Update(s.grid, p, At(s.grid, p).(wall := false))) == Walls(s.grid) - {p}
  {
    var c := At(s.grid, p).(wall := false);
    WallsAfterUpdate(s.grid, p, c);
    assert p in Walls(s.grid);
    assert |Walls(s.grid) - {p}| == |Walls(s.grid)| - 1;
  }

  /**
   Space: every node appends its current neighbours, the solver runs over
   the lists without skipping walls, the links from `end` are added to the
   length, and the player wins when the blocks are exactly one fewer. The
   solver always succeeds, so the round always ends here.
   */
  method Evaluate(s: Round) returns (r: Round, found: bool)
    requires Inv(s)
    ensures Inv(r) && r.grid == s.grid && r.start == s.start && r.end == s.end && r.counter == s.counter
    ensures found && r.calculated && r.ended
    ensures r.lists == AppendLists(s.lists, s.grid)
    ensures r.pathLength == s.pathLength + Manhattan(s.start, s.end)
    ensures r.wins <==> s.counter == r.pathLength - 1
  {
    AppendKeepsComplete(s.lists, s.grid);
    var lists := AppendLists(s.lists, s.grid);
    var links;
    found, links := OpenShortest(lists, s.start, s.end);
    var len := s.pathLength + links;
    r := s.(lists := lists, pathLength := len, calculated := true, ended := true, wins := s.counter == len - 1);
  }

  /**
   `dijkstra(grid, start, end)` with nothing skipped for being a wall,
   followed by `reconstruct_path(end)` and the link count: on complete lists
   the end is always found, at the Manhattan distance.
   */
  method OpenShortest(lists: Lists, start: Pos, end: Pos) returns (found: bool, links: nat)
    requires Complete(lists) && InBounds(start) && InBounds(end)
    ensures found && links == Manhattan(start, end)
    ensures Distance(lists, {}, start, end, links)
  {
    CompleteIsOnGrid(lists);
    SearchFresh(lists, {}, start, end);
    var t := Search(lists, {}, start, end, map[], map[]);
    var dist, prev := t.1, t.2;
    found := t.0;
    OpenDistance(lists, start, end);
    DistanceUnique(lists, {}, start, end, dist[end], Manhattan(start, end));
    links := Walk(dist, prev, start, end, map[start := Green, end := Red], {Green, Red}, Yellow).0;
  }

  /** The least number of steps is unique. */
  lemma {:induction false} DistanceUnique(adj: Lists, blocked: set<Pos>, a: Pos, b: Pos, m: nat, n: nat)
    requires Distance(adj, blocked, a, b, m) && Distance(adj, blocked, a, b, n)
    ensures m == n
  {
    var p :| PathFromTo(adj, blocked, p, a, b) && |p| - 1 == m;
    var q :| PathFromTo(adj, blocked, q, a, b) && |q| - 1 == n;
  }

  /** The route that closes the row gap first, then the column gap. */
  lemma {:induction false} StraightRoute(lists: Lists, a: Pos, b: Pos) returns (p: seq<Pos>)
    requires Complete(lists) && InBounds(a) && InBounds(b)
    ensures PathFromTo(lists, {}, p, a, b) && |p| - 1 == Manhattan(a, b)
    decreases Manhattan(a, b)
  {
    if a == b {
      p := [a];
    } else {
      var c := Toward(a, b);
      var q := StraightRoute(lists, c, b);
      CompleteStep(lists, {}, a, c);
      p := [a] + q;
      forall i | 0 <= i < |p| - 1
        ensures Step(lists, {}, p[i], p[i + 1])
      {
        if i > 0 {
          assert p[i] == q[i - 1] && p[i + 1] == q[i];
        }
      }
    }
  }

  /** The first step of `StraightRoute`: close the row gap first, then the column gap. */
  lemma {:induction false} Toward(a: Pos, b: Pos) returns (c: Pos)
    requires InBounds(a) && InBounds(b) && a != b
    ensures Adjacent(a, c) && Manhattan(c, b) + 1 == Manhattan(a, b)
  {
    c := if a.row < b.row then Down(a)
         else if a.row > b.row then Up(a)
         else if a.col < b.col then Right(a)
         else Left(a);
  }

  /** Over complete lists with nothing blocked, the distance between two cells is their Manhattan distance. */
  lemma {:induction false} OpenDistance(lists: Lists, a: Pos, b: Pos)
    requires Complete(lists) && InBounds(a) && InBounds(b)
    ensures Distance(lists, {}, a, b, Manhattan(a, b))
  {
    var p := StraightRoute(lists, a, b);
    forall q | PathFromTo(lists, {}, q, a, b)
      ensures Manhattan(a, b) <= |q| - 1
    {
      RouteAtLeastManhattan(lists, q);
    }
  }
}
