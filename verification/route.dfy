/**
 The player's route check of the newest version (`player_path_valid`): a
 breadth-first search from `start` that may only step onto cells the player
 has marked, or onto `end`. Obstacle walls play no part in it.
 */
module RouteCheck {
  import opened Board
  import opened Adjacency
  import opened Paths

  /** The cells the route may not step onto: every cell neither marked nor `end`. */
  function OffRoute(g: Grid, end: Pos): set<Pos>
    requires Valid(g)
  {
    set p | p in AllCells() && !At(g, p).playerWall && p != end
  }

  /** The candidates on the grid that are marked or are `end`, in their original order. */
  function OnRoute(g: Grid, end: Pos, cs: seq<Pos>): (r: seq<Pos>)
    requires Valid(g)
    ensures forall q :: q in r <==> q in cs && InBounds(q) && (At(g, q).playerWall || q == end)
    ensures forall i :: 0 <= i < |r| ==> InBounds(r[i])
  {
    if cs == [] then []
    else
      var head := if InBounds(cs[0]) && (At(g, cs[0]).playerWall || cs[0] == end) then [cs[0]] else [];
      head + OnRoute(g, end, cs[1..])
  }

  /** The cells `player_path_valid` considers from `p`, tried down, up, right, left. */
  function RouteSteps(g: Grid, end: Pos, p: Pos): (r: seq<Pos>)
    requires Valid(g) && InBounds(p)
    ensures forall q :: q in r <==> Step(GridLists(), OffRoute(g, end), p, q)
    ensures forall i :: 0 <= i < |r| ==> InBounds(r[i])
  {
    GridSteps(OffRoute(g, end), p);
    OffRouteCells(g, end);
    assert forall q :: Adjacent(p, q) <==> q in Candidates(p) && InBounds(q);
    OnRoute(g, end, Candidates(p))
  }

  /** The steps out of a cell in plain grid adjacency: its orthogonal cells that are not blocked. */
  lemma {:induction false} GridSteps(blocked: set<Pos>, u: Pos)
    requires InBounds(u)
    ensures forall w :: Step(GridLists(), blocked, u, w) <==> Adjacent(u, w) && w !in blocked
  {
    forall w
      ensures Step(GridLists(), blocked, u, w) <==> Adjacent(u, w) && w !in blocked
    {
      CompleteStep(GridLists(), blocked, u, w);
    }
  }

  /** A cell on the grid is open to the route exactly when it is marked or is `end`. */
  lemma {:induction false} OffRouteCells(g: Grid, end: Pos)
    requires Valid(g)
    ensures forall q :: InBounds(q) ==> (q !in OffRoute(g, end) <==> At(g, q).playerWall || q == end)
  {
  }

  /**
   The inner `for neighbor in neighbors` loop: every step target not yet
   visited is marked visited and appended to the queue.
   */
  method EnqueueNew(adj: Lists, bl: set<Pos>, start: Pos, cur: Pos, nbrs: seq<Pos>,
                    visited0: set<Pos>, queue0: seq<Pos>)
    returns (visited: set<Pos>, queue: seq<Pos>)
    requires forall q :: q in nbrs <==> Step(adj, bl, cur, q)
    requires forall i :: 0 <= i < |nbrs| ==> InBounds(nbrs[i])
    requires Reachable(adj, bl, start, cur)
    requires forall i :: 0 <= i < |queue0| ==> InBounds(queue0[i]) && Reachable(adj, bl, start, queue0[i])
    ensures visited0 <= visited
    ensures forall v :: v in visited ==> v in visited0 || v in nbrs
    ensures forall w :: Step(adj, bl, cur, w) ==> w in visited
    ensures forall i :: 0 <= i < |queue| ==> InBounds(queue[i]) && Reachable(adj, bl, start, queue[i])
    ensures forall v :: v in visited ==> v in visited0 || v in queue
    ensures forall v :: v in queue0 ==> v in queue
    ensures visited == visited0 ==> queue == queue0
  {
    visited, queue := visited0, queue0;
    var k := 0;
    while k < |nbrs|
      invariant 0 <= k <= |nbrs|
      invariant visited0 <= visited
      invariant forall v :: v in visited ==> v in visited0 || v in nbrs[..k]
      invariant forall i :: 0 <= i < k ==> nbrs[i] in visited
      invariant forall i :: 0 <= i < |queue| ==> InBounds(queue[i]) && Reachable(adj, bl, start, queue[i])
      invariant forall v :: v in visited ==> v in visited0 || v in queue
      invariant queue0 <= queue
      invariant visited == visited0 ==> queue == queue0
    {
      var w := nbrs[k];
      if w !in visited {
        ReachStep(adj, bl, start, cur, w);
        visited := visited + {w};
        queue := queue + [w];
      }
      assert nbrs[..k + 1] == nbrs[..k] + [w];
      k := k + 1;
    }
    assert nbrs[..k] == nbrs;
    forall v | v in queue0
      ensures v in queue
    {
      var i :| 0 <= i < |queue0| && queue0[i] == v;
      assert queue[i] == v;
    }
    forall w | Step(adj, bl, cur, w)
      ensures w in visited
    {
      var i :| 0 <= i < |nbrs| && nbrs[i] == w;
    }
  }

  lemma {:induction false} TailKeeps(q: seq<Pos>, v: Pos)
    requires v in q && v != q[0]
    ensures v in q[1..]
  {
    var i :| 0 <= i < |q| && q[i] == v;
    assert q[1..][i - 1] == v;
  }

  /**
   The search state between two dequeues: queued and visited cells are
   reachable, every dequeued cell (`done`) has all its steps visited, and
   every visited cell is dequeued or still queued.
   */
  ghost predicate Searching(adj: Lists, bl: set<Pos>, start: Pos, end: Pos,
                            visited: set<Pos>, queue: seq<Pos>, done: set<Pos>) {
    && visited <= AllCells()
    && (forall i :: 0 <= i < |queue| ==> InBounds(queue[i]) && Reachable(adj, bl, start, queue[i]))
    && done <= visited
    && (forall v :: v in visited ==> v in done || v in queue)
    && (forall u, w :: u in done && Step(adj, bl, u, w) ==> w in visited)
    && (start in done || start in queue)
    && end !in done
  }

  /**
   The `done` bookkeeping after a dequeue: `cur`, the oldest queued cell,
   joins `done`, and every cell visited so far is either done or still queued.
   */
  lemma {:induction false} Accounted(visited: set<Pos>, queue: seq<Pos>, done: set<Pos>,
                                     visited': set<Pos>, queue': seq<Pos>, start: Pos)
    requires queue != []
    requires forall v :: v in visited ==> v in done || v in queue
    requires start in done || start in queue
    requires forall v :: v in visited' ==> v in visited + {queue[0]} || v in queue'
    requires forall v :: v in queue[1..] ==> v in queue'
    ensures forall v :: v in visited' ==> v in done + {queue[0]} || v in queue'
    ensures start in done + {queue[0]} || start in queue'
  {
    forall v | v in visited'
      ensures v in done + {queue[0]} || v in queue'
    {
      if v in visited && v !in done && v != queue[0] {
        TailKeeps(queue, v);
      }
    }
    if start !in done && start != queue[0] {
      TailKeeps(queue, start);
    }
  }

  /**
   One pass of the `while queue` loop over any graph: dequeue the oldest
   cell, stop if it is `end`, otherwise mark it visited and queue the
   unvisited cells of `nbrs`, its steps.
   */
  method Dequeue(adj: Lists, bl: set<Pos>, start: Pos, end: Pos, nbrs: seq<Pos>,
                 visited: set<Pos>, queue: seq<Pos>, ghost done: set<Pos>)
    returns (found: bool, visited': set<Pos>, queue': seq<Pos>, ghost done': set<Pos>)
    requires queue != [] && InBounds(queue[0])
    requires forall q :: q in nbrs <==> Step(adj, bl, queue[0], q)
    requires forall i :: 0 <= i < |nbrs| ==> InBounds(nbrs[i])
    requires Searching(adj, bl, start, end, visited, queue, done)
    ensures found ==> Reachable(adj, bl, start, end)
    ensures !found ==> Searching(adj, bl, start, end, visited', queue', done')
    ensures !found ==> (visited' == visited && |queue'| < |queue|) || (visited < visited' <= AllCells())
  {
    var cur := queue[0];
    found := cur == end;
    if found {
      visited', queue', done' := visited, queue, done;
      return;
    }
    visited', queue' := EnqueueNew(adj, bl, start, cur, nbrs, visited + {cur}, queue[1..]);
    done' := done + {cur};
    Accounted(visited, queue, done, visited', queue', start);
  }

  /** The search starts with only `start` queued. */
  lemma {:induction false} SearchStart(adj: Lists, bl: set<Pos>, start: Pos, end: Pos)
    requires InBounds(start)
    ensures Searching(adj, bl, start, end, {}, [start], {})
  {
    assert PathFromTo(adj, bl, [start], start, start);
  }

  /** A pass that visits a new cell, or shortens the queue, brings the search closer to its end. */
  lemma {:induction false} Progress(visited: set<Pos>, visited': set<Pos>, queue: seq<Pos>, queue': seq<Pos>)
    requires (visited' == visited && |queue'| < |queue|) || (visited < visited' <= AllCells())
    ensures AllCells() - visited' < AllCells() - visited ||
      (AllCells() - visited' == AllCells() - visited && |queue'| < |queue|)
  {
    if visited < visited' {
      var v :| v in visited' && v !in visited;
      assert v in AllCells() - visited;
    }
  }

  /** With the queue empty, every cell reachable from `start` has been dequeued, and `end` was not. */
  lemma {:induction false} Exhausted(adj: Lists, bl: set<Pos>, start: Pos, end: Pos, visited: set<Pos>, done: set<Pos>)
    requires Searching(adj, bl, start, end, visited, [], done)
    ensures !Reachable(adj, bl, start, end)
  {
    if Reachable(adj, bl, start, end) {
      var p :| PathFromTo(adj, bl, p, start, end);
      ClosedSetHoldsPath(adj, bl, done, p);
    }
  }

  /** `Dequeue` on the route graph of grid `g`. */
  method Visit(g: Grid, start: Pos, end: Pos, visited: set<Pos>, queue: seq<Pos>, ghost done: set<Pos>)
    returns (found: bool, visited': set<Pos>, queue': seq<Pos>, ghost done': set<Pos>)
    requires Valid(g) && queue != []
    requires Searching(GridLists(), OffRoute(g, end), start, end, visited, queue, done)
    ensures found ==> Reachable(GridLists(), OffRoute(g, end), start, end)
    ensures !found ==> Searching(GridLists(), OffRoute(g, end), start, end, visited', queue', done')
    ensures !found ==> (visited' == visited && |queue'| < |queue|) || (visited < visited' <= AllCells())
  {
    var nbrs := RouteSteps(g, end, queue[0]);
    found, visited', queue', done' := Dequeue(GridLists(), OffRoute(g, end), start, end, nbrs, visited, queue, done);
  }

  /**
   `player_path_valid(grid, start, end)`: true exactly when `end` can be
   reached from `start` by orthogonal steps onto marked cells or `end`.
   */
  method PlayerPathValid(g: Grid, start: Pos, end: Pos) returns (ok: bool)
    requires Valid(g) && InBounds(start)
    ensures ok <==> Reachable(GridLists(), OffRoute(g, end), start, end)
  {
    var visited: set<Pos> := {};
    var queue := [start];
    ghost var done: set<Pos> := {};
    SearchStart(GridLists(), OffRoute(g, end), start, end);
    while queue != []
      invariant Searching(GridLists(), OffRoute(g, end), start, end, visited, queue, done)
      decreases AllCells() - visited, |queue|
    {
      var stop, visited0, queue0 := false, visited, queue;
      stop, visited, queue, done := Visit(g, start, end, visited, queue, done);
      if stop {
        return true;
      }
      Progress(visited0, visited, queue0, queue);
    }
    Exhausted(GridLists(), OffRoute(g, end), start, end, visited, done);
    return false;
  }
}
