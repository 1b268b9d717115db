/**
 The search of the two older versions (src/Shortest_Path_Game.py and
 Shortest_Path_Game.py), written as functions over the solver state so that
 what one search leaves behind can be followed into the next.

 A popped cell that was visited before is skipped; otherwise it is marked
 visited, compared with `end`, and its neighbours are relaxed from the
 cell's own distance. Distances and links live in the cells, and the search
 only sets `start`'s distance to 0: every other distance and every link is
 whatever an earlier search left there, which on a new grid is nothing.
 */
module OlderDijkstra {
  import opened Board
  import opened Adjacency
  import opened Paths
  import opened Chains
  import opened Dijkstra

  /** The state of `dijkstra` between two passes of its `while pq` loop. */
  datatype State = State(visited: set<Pos>, dist: map<Pos, nat>, prev: map<Pos, Pos>, pq: seq<Entry>)

  /** Visited cells are on the grid, and every frontier entry names a reached cell on the grid. */
  predicate Tidy(s: State) {
    && (forall v :: v in s.visited ==> InBounds(v))
    && (forall i :: 0 <= i < |s.pq| ==> s.pq[i].cell in s.dist && InBounds(s.pq[i].cell))
  }

  /** The neighbour list of `x`; a cell without a list has no neighbours. */
  function Nbrs(adj: Lists, x: Pos): (r: seq<Pos>)
    requires OnGrid(adj)
    ensures forall k :: 0 <= k < |r| ==> InBounds(r[k])
  {
    if x in adj then adj[x] else []
  }

  /** `new_distance < neighbor.distance`, an unreached cell being at infinity. */
  predicate Improves(dist: map<Pos, nat>, w: Pos, d: nat) {
    w !in dist || d < dist[w]
  }

  /**
   One round of the `for neighbor in current_node.neighbors` loop from
   distance `base`: a neighbour already visited or blocked is skipped;
   otherwise, when `base + 1` improves on its distance, it takes that
   distance, `x` as predecessor, and a new frontier entry.
   */
  function RelaxOne(blocked: set<Pos>, x: Pos, base: nat, w: Pos, s: State): (r: State)
    requires Tidy(s) && InBounds(w)
    ensures Tidy(r) && r.visited == s.visited
  {
    if w in s.visited || w in blocked || !Improves(s.dist, w, base + 1) then s
    else
      var r := s.(dist := s.dist[w := base + 1], prev := s.prev[w := x], pq := s.pq + [Entry(base + 1, w)]);
      assert Tidy(r) by {
        forall i | 0 <= i < |r.pq|
          ensures r.pq[i].cell in r.dist && InBounds(r.pq[i].cell)
        {
          if i < |s.pq| {
            assert r.pq[i] == s.pq[i];
          }
        }
      }
      r
  }

  /** The whole neighbour loop over `nbrs`, in list order. */
  function RelaxAll(blocked: set<Pos>, x: Pos, base: nat, nbrs: seq<Pos>, s: State): (r: State)
    requires Tidy(s) && forall k :: 0 <= k < |nbrs| ==> InBounds(nbrs[k])
    ensures Tidy(r) && r.visited == s.visited
    decreases |nbrs|
  {
    if nbrs == [] then s
    else RelaxAll(blocked, x, base, nbrs[1..], RelaxOne(blocked, x, base, nbrs[0], s))
  }

  /** The frontier without entry `m` holds the other entries in their order. */
  lemma RestOf(pq: seq<Entry>, m: nat)
    requires m < |pq|
    ensures |pq[..m] + pq[m + 1..]| == |pq| - 1
    ensures forall i :: 0 <= i < m ==> (pq[..m] + pq[m + 1..])[i] == pq[i]
    ensures forall i :: m < i < |pq| ==> (pq[..m] + pq[m + 1..])[i - 1] == pq[i]
  {
  }

  /** The state with entry `m` taken off the frontier, the other entries keeping their order. */
  function Pop(s: State, m: nat): (r: State)
    requires Tidy(s) && m < |s.pq|
    ensures Tidy(r) && r.visited == s.visited && r.dist == s.dist && r.prev == s.prev
    ensures |r.pq| + 1 == |s.pq|
    ensures forall i :: 0 <= i < m ==> r.pq[i] == s.pq[i]
    ensures forall i :: m < i < |s.pq| ==> r.pq[i - 1] == s.pq[i]
  {
    RestOf(s.pq, m);
    s.(pq := s.pq[..m] + s.pq[m + 1..])
  }

  /**
   One pass of the `while pq` loop: pop the least entry; skip its cell when
   it was visited; otherwise mark it visited and stop with success if it is
   `end`, or else relax its neighbours from its own distance.
   */
  function Pass(adj: Lists, blocked: set<Pos>, end: Pos, s: State): (r: (bool, State))
    requires OnGrid(adj) && Tidy(s) && s.pq != []
    ensures Tidy(r.1)
    ensures !r.0 ==> (r.1.visited == s.visited && |r.1.pq| < |s.pq|) ||
                     (s.visited < r.1.visited && AllCells() - r.1.visited < AllCells() - s.visited)
  {
    var m := MinIndex(s.pq);
    var x := s.pq[m].cell;
    var s1 := Pop(s, m);
    if x in s.visited then (false, s1)
    else
      var s2 := s1.(visited := s.visited + {x});
      assert x in AllCells() - s.visited;
      if x == end then (true, s2)
      else (false, RelaxAll(blocked, x, s.dist[x], Nbrs(adj, x), s2))
  }

  /** The `while pq` loop: passes until `end` is popped or the frontier runs out. */
  function Run(adj: Lists, blocked: set<Pos>, end: Pos, s: State): (bool, State)
    requires OnGrid(adj) && Tidy(s)
    decreases AllCells() - s.visited, |s.pq|
  {
    if s.pq == [] then (false, s)
    else
      var p := Pass(adj, blocked, end, s);
      if p.0 then p else Run(adj, blocked, end, p.1)
  }

  /** The state `dijkstra` starts from: `start` at distance 0, the rest as the cells hold it. */
  function Initial(start: Pos, dist0: map<Pos, nat>, prev0: map<Pos, Pos>): State {
    State({}, dist0[start := 0], prev0, [Entry(0, start)])
  }

  /**
   `dijkstra(grid, start, end)` on the neighbour lists `adj`, skipping
   `blocked` neighbours, over the distances `dist0` and links `prev0` the
   cells hold. Returns whether `end` was popped, with the distances and
   links the cells hold afterwards. Whatever the cells held, a reported
   success is never wrong.
   */
  function Search(adj: Lists, blocked: set<Pos>, start: Pos, end: Pos, dist0: map<Pos, nat>, prev0: map<Pos, Pos>)
    : (r: (bool, map<Pos, nat>, map<Pos, Pos>))
    requires OnGrid(adj) && InBounds(start)
    ensures r.0 ==> Reachable(adj, blocked, start, end)
  {
    var s0 := Initial(start, dist0, prev0);
    assert PathFromTo(adj, blocked, [start], start, start);
    RunSound(adj, blocked, start, end, s0);
    var t := Run(adj, blocked, end, s0);
    (t.0, t.1.dist, t.1.prev)
  }

  // Soundness, whatever the cells held

  /** Every frontier entry names a cell reachable from `start`. */
  ghost predicate Reaches(adj: Lists, blocked: set<Pos>, start: Pos, s: State) {
    forall i :: 0 <= i < |s.pq| ==> Reachable(adj, blocked, start, s.pq[i].cell)
  }

  /** Relaxing one step out of a reachable cell only adds a reachable entry. */
  lemma {:induction false} RelaxOneReaches(adj: Lists, blocked: set<Pos>, start: Pos, x: Pos, base: nat, w: Pos, s: State)
    requires Tidy(s) && InBounds(w) && (Step(adj, blocked, x, w) || w in blocked)
    requires Reachable(adj, blocked, start, x) && Reaches(adj, blocked, start, s)
    ensures Reaches(adj, blocked, start, RelaxOne(blocked, x, base, w, s))
  {
    var r := RelaxOne(blocked, x, base, w, s);
    if r != s {
      ReachStep(adj, blocked, start, x, w);
      forall i | 0 <= i < |r.pq|
        ensures Reachable(adj, blocked, start, r.pq[i].cell)
      {
        if i < |s.pq| {
          assert r.pq[i] == s.pq[i];
        }
      }
    }
  }

  /** Relaxing the steps out of a reachable cell only adds reachable entries. */
  lemma {:induction false} RelaxAllReaches(adj: Lists, blocked: set<Pos>, start: Pos, x: Pos, base: nat,
                                           nbrs: seq<Pos>, s: State)
    requires Tidy(s) && forall k :: 0 <= k < |nbrs| ==> InBounds(nbrs[k])
    requires forall k :: 0 <= k < |nbrs| ==> Step(adj, blocked, x, nbrs[k]) || nbrs[k] in blocked
    requires Reachable(adj, blocked, start, x) && Reaches(adj, blocked, start, s)
    ensures Reaches(adj, blocked, start, RelaxAll(blocked, x, base, nbrs, s))
    decreases |nbrs|
  {
    if nbrs != [] {
      RelaxOneReaches(adj, blocked, start, x, base, nbrs[0], s);
      RelaxAllReaches(adj, blocked, start, x, base, nbrs[1..], RelaxOne(blocked, x, base, nbrs[0], s));
    }
  }

  /** A pass keeps every entry reachable, and only pops `end` when it is reachable. */
  lemma {:induction false} PassSound(adj: Lists, blocked: set<Pos>, start: Pos, end: Pos, s: State)
    requires OnGrid(adj) && Tidy(s) && s.pq != [] && Reaches(adj, blocked, start, s)
    ensures Pass(adj, blocked, end, s).0 ==> Reachable(adj, blocked, start, end)
    ensures Reaches(adj, blocked, start, Pass(adj, blocked, end, s).1)
  {
    var m := MinIndex(s.pq);
    var x := s.pq[m].cell;
    var s1 := Pop(s, m);
    assert Reaches(adj, blocked, start, s1) by {
      forall i | 0 <= i < |s1.pq|
        ensures Reachable(adj, blocked, start, s1.pq[i].cell)
      {
        if i < m {
          assert s1.pq[i] == s.pq[i];
        } else {
          assert s1.pq[i] == s.pq[i + 1];
        }
      }
    }
    if x !in s.visited && x != end {
      var s2 := s1.(visited := s.visited + {x});
      var nbrs := Nbrs(adj, x);
      assert Pass(adj, blocked, end, s).1 == RelaxAll(blocked, x, s.dist[x], nbrs, s2);
      assert forall k :: 0 <= k < |nbrs| ==> Step(adj, blocked, x, nbrs[k]) || nbrs[k] in blocked;
      RelaxAllReaches(adj, blocked, start, x, s.dist[x], nbrs, s2);
    }
  }

  /** Whatever the starting state, the loop only reports success when `end` is reachable. */
  lemma {:induction false} RunSound(adj: Lists, blocked: set<Pos>, start: Pos, end: Pos, s: State)
    requires OnGrid(adj) && Tidy(s) && Reaches(adj, blocked, start, s)
    ensures Run(adj, blocked, end, s).0 ==> Reachable(adj, blocked, start, end)
    decreases AllCells() - s.visited, |s.pq|
  {
    if s.pq != [] {
      PassSound(adj, blocked, start, end, s);
      var p := Pass(adj, blocked, end, s);
      if !p.0 {
        RunSound(adj, blocked, start, end, p.1);
      }
    }
  }

  // What one relaxation loop changes

  /**
   The neighbour loop lowers distances only: visited cells keep theirs, no
   distance grows, and every listed neighbour neither visited nor blocked
   ends at `base + 1` or less.
   */
  lemma {:induction false} RelaxAllCovers(blocked: set<Pos>, x: Pos, base: nat, nbrs: seq<Pos>, s: State)
    requires Tidy(s) && forall k :: 0 <= k < |nbrs| ==> InBounds(nbrs[k])
    ensures var r := RelaxAll(blocked, x, base, nbrs, s);
      && (forall v :: v in s.visited ==> (v in r.dist <==> v in s.dist))
      && (forall v :: v in s.visited && v in s.dist ==> r.dist[v] == s.dist[v])
      && (forall v :: v in s.dist ==> v in r.dist && r.dist[v] <= s.dist[v])
      && (forall k :: 0 <= k < |nbrs| && nbrs[k] !in s.visited && nbrs[k] !in blocked ==>
            nbrs[k] in r.dist && r.dist[nbrs[k]] <= base + 1)
    decreases |nbrs|
  {
    if nbrs != [] {
      var w := nbrs[0];
      var s' := RelaxOne(blocked, x, base, w, s);
      RelaxOneEffect(blocked, x, base, w, s);
      assert s'.visited == s.visited;
      assert forall v :: v in s.dist ==> v in s'.dist && s'.dist[v] <= s.dist[v];
      assert forall v :: v in s.visited ==> (v in s'.dist <==> v in s.dist);
      assert w !in s.visited && w !in blocked ==> w in s'.dist && s'.dist[w] <= base + 1;
      RelaxAllCovers(blocked, x, base, nbrs[1..], s');
      var r := RelaxAll(blocked, x, base, nbrs, s);
      assert r == RelaxAll(blocked, x, base, nbrs[1..], s');
      forall k | 0 <= k < |nbrs| && nbrs[k] !in s.visited && nbrs[k] !in blocked
        ensures nbrs[k] in r.dist && r.dist[nbrs[k]] <= base + 1
      {
        if k > 0 {
          assert nbrs[k] == nbrs[1..][k - 1];
        }
      }
    }
  }

  /**
   The neighbour loop changes only what it improves: a cell whose distance
   changed is at `base + 1` with `x` as predecessor, and a cell already at
   `base + 1` or less keeps its distance and its link.
   */
  lemma {:induction false} RelaxAllChanges(blocked: set<Pos>, x: Pos, base: nat, nbrs: seq<Pos>, s: State)
    requires Tidy(s) && forall k :: 0 <= k < |nbrs| ==> InBounds(nbrs[k])
    ensures var r := RelaxAll(blocked, x, base, nbrs, s);
      forall v :: v in r.dist && Improves(s.dist, v, r.dist[v]) ==> r.dist[v] == base + 1 && v in r.prev && r.prev[v] == x
    ensures var r := RelaxAll(blocked, x, base, nbrs, s);
      forall v :: v in s.dist && s.dist[v] <= base + 1 ==>
        && v in r.dist && r.dist[v] == s.dist[v]
        && (v in r.prev <==> v in s.prev)
        && (v in s.prev ==> r.prev[v] == s.prev[v])
    decreases |nbrs|
  {
    RelaxAllKeepsNear(blocked, x, base, nbrs, s);
    if nbrs != [] {
      var w := nbrs[0];
      var s' := RelaxOne(blocked, x, base, w, s);
      RelaxOneEffect(blocked, x, base, w, s);
      RelaxAllChanges(blocked, x, base, nbrs[1..], s');
      RelaxAllKeepsNear(blocked, x, base, nbrs[1..], s');
      var r := RelaxAll(blocked, x, base, nbrs, s);
      assert r == RelaxAll(blocked, x, base, nbrs[1..], s');
      forall v | v in r.dist && Improves(s.dist, v, r.dist[v])
        ensures r.dist[v] == base + 1 && v in r.prev && r.prev[v] == x
      {
        if s' != s && v == w {
          if !Improves(s'.dist, v, r.dist[v]) {
            assert s'.dist[v] == base + 1 && s'.prev[v] == x;
          }
        } else {
          assert Improves(s'.dist, v, r.dist[v]);
        }
      }
    }
  }

  /** The second half of `RelaxAllChanges`: a cell already at `base + 1` or less keeps its distance and link. */
  lemma {:induction false} RelaxAllKeepsNear(blocked: set<Pos>, x: Pos, base: nat, nbrs: seq<Pos>, s: State)
    requires Tidy(s) && forall k :: 0 <= k < |nbrs| ==> InBounds(nbrs[k])
    ensures var r := RelaxAll(blocked, x, base, nbrs, s);
      forall v :: v in s.dist && s.dist[v] <= base + 1 ==>
        && v in r.dist && r.dist[v] == s.dist[v]
        && (v in r.prev <==> v in s.prev)
        && (v in s.prev ==> r.prev[v] == s.prev[v])
    decreases |nbrs|
  {
    if nbrs != [] {
      var s' := RelaxOne(blocked, x, base, nbrs[0], s);
      RelaxOneEffect(blocked, x, base, nbrs[0], s);
      RelaxAllKeepsNear(blocked, x, base, nbrs[1..], s');
      assert RelaxAll(blocked, x, base, nbrs, s) == RelaxAll(blocked, x, base, nbrs[1..], s');
      forall v | v in s.dist && s.dist[v] <= base + 1
        ensures v in s'.dist && s'.dist[v] == s.dist[v] && (v in s'.prev <==> v in s.prev)
        ensures v in s.prev ==> s'.prev[v] == s.prev[v]
      {
      }
    }
  }

  /** One neighbour round either changes nothing or gives `w` distance `base + 1`, which it improves, and link `x`. */
  lemma RelaxOneEffect(blocked: set<Pos>, x: Pos, base: nat, w: Pos, s: State)
    requires Tidy(s) && InBounds(w)
    ensures var r := RelaxOne(blocked, x, base, w, s);
      || r == s
      || (Improves(s.dist, w, base + 1) && r.dist == s.dist[w := base + 1] && r.prev == s.prev[w := x])
  {
  }

  /** Nothing changes when every listed neighbour is visited, blocked or already at `base + 1` or less. */
  lemma {:induction false} RelaxAllIdle(blocked: set<Pos>, x: Pos, base: nat, nbrs: seq<Pos>, s: State)
    requires Tidy(s) && forall k :: 0 <= k < |nbrs| ==> InBounds(nbrs[k])
    requires forall k :: 0 <= k < |nbrs| ==> nbrs[k] in s.visited || nbrs[k] in blocked || !Improves(s.dist, nbrs[k], base + 1)
    ensures RelaxAll(blocked, x, base, nbrs, s) == s
    decreases |nbrs|
  {
    if nbrs != [] {
      RelaxAllIdle(blocked, x, base, nbrs[1..], s);
    }
  }

  // Correctness from a fresh state

  /** Relaxing one listed step out of expanded `x` from its own distance keeps the state's shape. */
  lemma {:induction false} RelaxOneFrame(adj: Lists, blocked: set<Pos>, start: Pos, x: Pos, base: nat, w: Pos, s: State)
    requires Tidy(s) && InBounds(w) && (Step(adj, blocked, x, w) || w in blocked)
    requires x in s.visited && x in s.dist && base == s.dist[x]
    requires Frame(adj, blocked, start, s.visited, s.dist, s.prev, s.pq)
    ensures var r := RelaxOne(blocked, x, base, w, s);
      && Frame(adj, blocked, start, r.visited, r.dist, r.prev, r.pq)
      && x in r.dist && r.dist[x] == base
  {
    if w !in s.visited && w !in blocked && Improves(s.dist, w, base + 1) {
      ImproveKeepsFrame(adj, blocked, start, x, base, w, s);
    }
  }

  /** The improving case of `RelaxOneFrame`: `w` takes distance `base + 1`, link `x` and a frontier entry. */
  lemma {:induction false} ImproveKeepsFrame(adj: Lists, blocked: set<Pos>, start: Pos, x: Pos, base: nat, w: Pos, s: State)
    requires Tidy(s) && InBounds(w) && Step(adj, blocked, x, w)
    requires x in s.visited && x in s.dist && base == s.dist[x]
    requires Frame(adj, blocked, start, s.visited, s.dist, s.prev, s.pq)
    requires w !in s.visited && Improves(s.dist, w, base + 1)
    ensures var r := RelaxOne(blocked, x, base, w, s);
      && Frame(adj, blocked, start, r.visited, r.dist, r.prev, r.pq)
      && x in r.dist && r.dist[x] == base
  {
    var r := RelaxOne(blocked, x, base, w, s);
    assert r == State(s.visited, s.dist[w := base + 1], s.prev[w := x], s.pq + [Entry(base + 1, w)]);
    RelaxKeepsFrame(adj, blocked, start, s.visited, s.dist, s.prev, s.pq, x, w, base + 1);
  }

  /** Relaxing every listed step out of expanded `x` from its own distance keeps the state's shape. */
  lemma {:induction false} RelaxAllFrame(adj: Lists, blocked: set<Pos>, start: Pos, x: Pos, base: nat,
                                         nbrs: seq<Pos>, s: State)
    requires Tidy(s) && forall k :: 0 <= k < |nbrs| ==> InBounds(nbrs[k])
    requires forall w :: w in nbrs ==> Step(adj, blocked, x, w) || w in blocked
    requires x in s.visited && x in s.dist && base == s.dist[x]
    requires Frame(adj, blocked, start, s.visited, s.dist, s.prev, s.pq)
    ensures var r := RelaxAll(blocked, x, base, nbrs, s); Frame(adj, blocked, start, r.visited, r.dist, r.prev, r.pq)
    decreases |nbrs|
  {
    if nbrs != [] {
      var s' := RelaxOne(blocked, x, base, nbrs[0], s);
      var r := RelaxAll(blocked, x, base, nbrs[1..], s');
      assert RelaxAll(blocked, x, base, nbrs, s) == r;
      assert Frame(adj, blocked, start, r.visited, r.dist, r.prev, r.pq) by {
        RelaxOneFrame(adj, blocked, start, x, base, nbrs[0], s);
        assert forall w :: w in nbrs[1..] ==> w in nbrs;
        RelaxAllFrame(adj, blocked, start, x, base, nbrs[1..], s');
      }
    }
  }

  /** Every listed neighbour neither expanded nor blocked within `base + 1`: every step out of `x` is relaxed. */
  lemma {:induction false} ListedRelaxed(adj: Lists, blocked: set<Pos>, visited: set<Pos>, x: Pos, base: nat,
                                         nbrs: seq<Pos>, dist: map<Pos, nat>)
    requires OnGrid(adj) && nbrs == Nbrs(adj, x)
    requires forall k :: 0 <= k < |nbrs| && nbrs[k] !in visited && nbrs[k] !in blocked ==>
               nbrs[k] in dist && dist[nbrs[k]] <= base + 1
    ensures RelaxedFrom(adj, blocked, visited, x, base, dist)
  {
    forall w | Step(adj, blocked, x, w) && w !in visited
      ensures w in dist && dist[w] <= base + 1
    {
      var k :| 0 <= k < |nbrs| && nbrs[k] == w;
    }
  }

  /** Expanding the cell of a least entry that was not visited and is not `end` keeps the search correct. */
  lemma {:induction false} ExpandKeeps(adj: Lists, blocked: set<Pos>, start: Pos, end: Pos, s: State, m: nat)
    requires OnGrid(adj) && Tidy(s) && m < |s.pq| && forall i :: 0 <= i < |s.pq| ==> s.pq[m].key <= s.pq[i].key
    requires Searching(adj, blocked, start, end, s.visited, s.dist, s.prev, s.pq)
    requires s.pq[m].cell !in s.visited && s.pq[m].cell != end
    ensures var x := s.pq[m].cell;
      var r := RelaxAll(blocked, x, s.dist[x], Nbrs(adj, x), Pop(s, m).(visited := s.visited + {x}));
      Searching(adj, blocked, start, end, r.visited, r.dist, r.prev, r.pq)
  {
    var x := s.pq[m].cell;
    var s2 := Pop(s, m).(visited := s.visited + {x});
    PopKeepsFrame(adj, blocked, start, s.visited, s.dist, s.prev, s.pq, m);
    PopIsFinal(adj, blocked, start, s.visited, s.dist, s.prev, s.pq, m);
    RelaxGrows(adj, blocked, start, end, s.visited, x, s2);
  }

  /**
   Relaxing the neighbours of `x`, just added to the expanded cells of `s`
   at a distance no route beats, keeps the search correct.
   */
  lemma {:induction false} RelaxGrows(adj: Lists, blocked: set<Pos>, start: Pos, end: Pos, visited: set<Pos>, x: Pos, s: State)
    requires OnGrid(adj) && Tidy(s) && s.visited == visited + {x}
    requires Settled(adj, blocked, start, visited, s.dist) && Relaxed(adj, blocked, visited, s.dist)
    requires Frame(adj, blocked, start, s.visited, s.dist, s.prev, s.pq)
    requires x in s.dist && NoShorter(adj, blocked, start, x, s.dist[x])
    requires end !in s.visited
    ensures var r := RelaxAll(blocked, x, s.dist[x], Nbrs(adj, x), s);
      Searching(adj, blocked, start, end, r.visited, r.dist, r.prev, r.pq)
  {
    var r := RelaxAll(blocked, x, s.dist[x], Nbrs(adj, x), s);
    RelaxAllFacts(adj, blocked, start, x, s);
    Grown(adj, blocked, start, end, visited, x, s.dist, s.prev, s.pq, r.dist, r.prev, r.pq);
  }

  /** Relaxing the listed neighbours of expanded `x` keeps the shape, lowers distances only outside the expanded cells, and relaxes every step out of `x`. */
  lemma RelaxAllFacts(adj: Lists, blocked: set<Pos>, start: Pos, x: Pos, s: State)
    requires OnGrid(adj) && Tidy(s) && x in s.visited && x in s.dist
    requires Frame(adj, blocked, start, s.visited, s.dist, s.prev, s.pq)
    ensures var r := RelaxAll(blocked, x, s.dist[x], Nbrs(adj, x), s);
      && Frame(adj, blocked, start, s.visited, r.dist, r.prev, r.pq)
      && r.visited == s.visited
      && (forall v :: v in s.visited ==> v in r.dist && r.dist[v] == s.dist[v])
      && (forall v :: v in s.dist ==> v in r.dist && r.dist[v] <= s.dist[v])
      && RelaxedFrom(adj, blocked, s.visited, x, s.dist[x], r.dist)
  {
    var nbrs := Nbrs(adj, x);
    assert forall w :: w in nbrs ==> Step(adj, blocked, x, w) || w in blocked;
    RelaxAllFrame(adj, blocked, start, x, s.dist[x], nbrs, s);
    RelaxAllCovers(blocked, x, s.dist[x], nbrs, s);
    var r := RelaxAll(blocked, x, s.dist[x], nbrs, s);
    ListedRelaxed(adj, blocked, s.visited, x, s.dist[x], nbrs, r.dist);
  }

  /** From a correct state, a pass either finds `end` at its distance or keeps the search correct. */
  lemma {:induction false} PassCorrect(adj: Lists, blocked: set<Pos>, start: Pos, end: Pos, s: State)
    requires OnGrid(adj) && Tidy(s) && s.pq != []
    requires Searching(adj, blocked, start, end, s.visited, s.dist, s.prev, s.pq)
    ensures var p := Pass(adj, blocked, end, s);
      p.0 ==> FoundEnd(adj, blocked, start, end, p.1.dist, p.1.prev)
    ensures var p := Pass(adj, blocked, end, s);
      !p.0 ==> Searching(adj, blocked, start, end, p.1.visited, p.1.dist, p.1.prev, p.1.pq)
  {
    var x := s.pq[MinIndex(s.pq)].cell;
    if x in s.visited {
      PassSkips(adj, blocked, start, end, s);
    } else if x == end {
      PassFinds(adj, blocked, start, end, s);
    } else {
      PassExpands(adj, blocked, start, end, s);
    }
  }

  /** A pass popping a visited cell drops the entry and keeps the search correct. */
  lemma {:induction false} PassSkips(adj: Lists, blocked: set<Pos>, start: Pos, end: Pos, s: State)
    requires OnGrid(adj) && Tidy(s) && s.pq != [] && s.pq[MinIndex(s.pq)].cell in s.visited
    requires Searching(adj, blocked, start, end, s.visited, s.dist, s.prev, s.pq)
    ensures var p := Pass(adj, blocked, end, s);
      !p.0 && Searching(adj, blocked, start, end, p.1.visited, p.1.dist, p.1.prev, p.1.pq)
  {
    var m := MinIndex(s.pq);
    assert Pass(adj, blocked, end, s) == (false, Pop(s, m));
    FrontierAfterPop(s.pq, m, s.dist, s.visited);
  }

  /** A pass popping `end` unvisited reports it, with its distance final. */
  lemma {:induction false} PassFinds(adj: Lists, blocked: set<Pos>, start: Pos, end: Pos, s: State)
    requires OnGrid(adj) && Tidy(s) && s.pq != []
    requires s.pq[MinIndex(s.pq)].cell !in s.visited && s.pq[MinIndex(s.pq)].cell == end
    requires Searching(adj, blocked, start, end, s.visited, s.dist, s.prev, s.pq)
    ensures var p := Pass(adj, blocked, end, s);
      p.0 && FoundEnd(adj, blocked, start, end, p.1.dist, p.1.prev)
  {
    PassPopsEnd(adj, blocked, end, s);
    EndExtracted(adj, blocked, start, end, s.visited, s.dist, s.prev, s.pq, MinIndex(s.pq));
  }

  /** A pass that pops an unvisited `end` stops with success and leaves distances and links alone. */
  lemma PassPopsEnd(adj: Lists, blocked: set<Pos>, end: Pos, s: State)
    requires OnGrid(adj) && Tidy(s) && s.pq != []
    requires s.pq[MinIndex(s.pq)].cell !in s.visited && s.pq[MinIndex(s.pq)].cell == end
    ensures var p := Pass(adj, blocked, end, s);
      p.0 && p.1.dist == s.dist && p.1.prev == s.prev
  {
  }

  /** A pass popping an unvisited cell other than `end` expands it and keeps the search correct. */
  lemma {:induction false} PassExpands(adj: Lists, blocked: set<Pos>, start: Pos, end: Pos, s: State)
    requires OnGrid(adj) && Tidy(s) && s.pq != []
    requires s.pq[MinIndex(s.pq)].cell !in s.visited && s.pq[MinIndex(s.pq)].cell != end
    requires Searching(adj, blocked, start, end, s.visited, s.dist, s.prev, s.pq)
    ensures var p := Pass(adj, blocked, end, s);
      !p.0 && Searching(adj, blocked, start, end, p.1.visited, p.1.dist, p.1.prev, p.1.pq)
  {
    var m := MinIndex(s.pq);
    var x := s.pq[m].cell;
    ExpandKeeps(adj, blocked, start, end, s, m);
    var s2 := Pop(s, m).(visited := s.visited + {x});
    assert Pass(adj, blocked, end, s) == (false, RelaxAll(blocked, x, s.dist[x], Nbrs(adj, x), s2));
  }

  /** From a correct state, the loop finds `end` exactly when it is reachable, at its distance. */
  lemma {:induction false} RunCorrect(adj: Lists, blocked: set<Pos>, start: Pos, end: Pos, s: State)
    requires OnGrid(adj) && Tidy(s)
    requires Searching(adj, blocked, start, end, s.visited, s.dist, s.prev, s.pq)
    ensures var r := Run(adj, blocked, end, s);
      Linked(r.1.dist, r.1.prev, start) && StepLinked(adj, blocked, r.1.prev)
    ensures var r := Run(adj, blocked, end, s);
      (r.0 <==> Reachable(adj, blocked, start, end)) &&
      (r.0 ==> end in r.1.dist && Distance(adj, blocked, start, end, r.1.dist[end]))
    decreases AllCells() - s.visited, |s.pq|
  {
    if s.pq == [] {
      EmptyFrontierUnreachable(adj, blocked, start, s.visited, s.dist, s.prev, end);
    } else {
      PassCorrect(adj, blocked, start, end, s);
      var p := Pass(adj, blocked, end, s);
      if !p.0 {
        RunCorrect(adj, blocked, start, end, p.1);
      }
    }
  }

  /**
   On cells that hold nothing yet, as on a new grid, the search finds `end`
   exactly when it is reachable, at its shortest distance, and leaves
   consistent links along steps of the graph.
   */
  lemma {:induction false} SearchFresh(adj: Lists, blocked: set<Pos>, start: Pos, end: Pos)
    requires OnGrid(adj) && InBounds(start)
    ensures var r := Search(adj, blocked, start, end, map[], map[]);
      Linked(r.1, r.2, start) && StepLinked(adj, blocked, r.2)
    ensures var r := Search(adj, blocked, start, end, map[], map[]);
      (r.0 <==> Reachable(adj, blocked, start, end)) &&
      (r.0 ==> end in r.1 && Distance(adj, blocked, start, end, r.1[end]))
  {
    var s0 := Initial(start, map[], map[]);
    assert s0 == State({}, map[start := 0], map[], [Entry(0, start)]);
    SearchBegins(adj, blocked, start, end);
    RunCorrect(adj, blocked, start, end, s0);
  }

  // What the search leaves near `start`

  /** Every cell at distance 1 or less in `s` keeps its distance and its link in `r`. */
  predicate KeepsNear(s: State, r: State) {
    forall v :: v in s.dist && s.dist[v] <= 1 ==>
      && v in r.dist && r.dist[v] == s.dist[v]
      && (v in r.prev <==> v in s.prev)
      && (v in s.prev ==> r.prev[v] == s.prev[v])
  }

  /** A pass never touches a cell at distance 1 or less: each relaxation writes at least 1. */
  lemma {:induction false} PassKeepsNear(adj: Lists, blocked: set<Pos>, end: Pos, s: State)
    requires OnGrid(adj) && Tidy(s) && s.pq != []
    ensures KeepsNear(s, Pass(adj, blocked, end, s).1)
  {
    var m := MinIndex(s.pq);
    var x := s.pq[m].cell;
    if x !in s.visited && x != end {
      var s2 := Pop(s, m).(visited := s.visited + {x});
      assert Pass(adj, blocked, end, s).1 == RelaxAll(blocked, x, s.dist[x], Nbrs(adj, x), s2);
      RelaxAllChanges(blocked, x, s.dist[x], Nbrs(adj, x), s2);
    }
  }

  /** Neither does the whole loop. */
  lemma {:induction false} RunKeepsNear(adj: Lists, blocked: set<Pos>, end: Pos, s: State)
    requires OnGrid(adj) && Tidy(s)
    ensures KeepsNear(s, Run(adj, blocked, end, s).1)
    decreases AllCells() - s.visited, |s.pq|
  {
    if s.pq != [] {
      PassKeepsNear(adj, blocked, end, s);
      var p := Pass(adj, blocked, end, s);
      if !p.0 {
        RunKeepsNear(adj, blocked, end, p.1);
      }
    }
  }

  /** The first pass pops `start`, marks it visited and relaxes its neighbours from distance 0. */
  lemma FirstPass(adj: Lists, blocked: set<Pos>, start: Pos, end: Pos, dist0: map<Pos, nat>, prev0: map<Pos, Pos>)
    requires OnGrid(adj) && InBounds(start) && start != end
    ensures Pass(adj, blocked, end, Initial(start, dist0, prev0)) ==
      (false, RelaxAll(blocked, start, 0, Nbrs(adj, start), State({start}, dist0[start := 0], prev0, [])))
  {
    var s0 := Initial(start, dist0, prev0);
    PopInitial(start, dist0, prev0);
    assert s0.pq[0].cell == start && s0.dist[start] == 0 && start !in s0.visited;
    assert s0.visited + {start} == {start};
  }

  /** The first pop takes the only entry, `start`'s, and leaves the frontier empty. */
  lemma PopInitial(start: Pos, dist0: map<Pos, nat>, prev0: map<Pos, Pos>)
    requires InBounds(start)
    ensures MinIndex(Initial(start, dist0, prev0).pq) == 0
    ensures Pop(Initial(start, dist0, prev0), 0) == State({}, dist0[start := 0], prev0, [])
  {
    var s0 := Initial(start, dist0, prev0);
    assert s0.pq[..0] + s0.pq[1..] == [];
  }

  /** A fresh search leaves links that fall by one per link to `start`, each a step of the searched graph. */
  lemma SearchFreshLinked(adj: Lists, blocked: set<Pos>, start: Pos, end: Pos)
    requires OnGrid(adj) && InBounds(start)
    ensures var r := Search(adj, blocked, start, end, map[], map[]);
      Linked(r.1, r.2, start) && StepLinked(adj, blocked, r.2)
  {
    SearchFresh(adj, blocked, start, end);
  }

  /** A fresh search reaches `end` no farther than the length of any route there, and links as `SearchFreshLinked` says. */
  lemma SearchFreshWithin(adj: Lists, blocked: set<Pos>, start: Pos, end: Pos, p: seq<Pos>)
    requires OnGrid(adj) && InBounds(start) && PathFromTo(adj, blocked, p, start, end)
    ensures var r := Search(adj, blocked, start, end, map[], map[]);
      && Linked(r.1, r.2, start) && StepLinked(adj, blocked, r.2)
      && end in r.1 && r.1[end] <= |p| - 1
  {
    SearchFresh(adj, blocked, start, end);
  }

  /** After the first pass every step out of `start` ends within distance 1; the later passes only lower it. */
  lemma FirstPassNear(adj: Lists, blocked: set<Pos>, start: Pos, end: Pos,
                      dist0: map<Pos, nat>, prev0: map<Pos, Pos>, w: Pos)
    requires OnGrid(adj) && InBounds(start) && start != end && Step(adj, blocked, start, w) && w != start
    ensures var r := Search(adj, blocked, start, end, dist0, prev0);
      w in r.1 && r.1[w] <= 1
  {
    SearchFirstPass(adj, blocked, start, end, dist0, prev0);
  }

  /**
   The first pass expands `start`: afterwards every step out of `start` is at
   distance 1 or less, a step target that was farther is linked to `start`,
   and `start` keeps whatever link it held.
   */
  lemma {:induction false} SearchFirstPass(adj: Lists, blocked: set<Pos>, start: Pos, end: Pos,
                                           dist0: map<Pos, nat>, prev0: map<Pos, Pos>)
    requires OnGrid(adj) && InBounds(start) && start != end
    ensures var r := Search(adj, blocked, start, end, dist0, prev0);
      start in r.1 && r.1[start] == 0 && (start in r.2 <==> start in prev0) &&
      (start in prev0 ==> r.2[start] == prev0[start])
    ensures var r := Search(adj, blocked, start, end, dist0, prev0);
      forall w :: Step(adj, blocked, start, w) && w != start ==> w in r.1 && r.1[w] <= 1
    ensures var r := Search(adj, blocked, start, end, dist0, prev0);
      forall w :: Step(adj, blocked, start, w) && w != start && Improves(dist0, w, 1) ==>
        r.1[w] == 1 && w in r.2 && r.2[w] == start
  {
    var s0 := Initial(start, dist0, prev0);
    var s2 := State({start}, s0.dist, prev0, []);
    var nbrs := Nbrs(adj, start);
    var s3 := RelaxAll(blocked, start, 0, nbrs, s2);
    FirstPass(adj, blocked, start, end, dist0, prev0);
    RelaxAllCovers(blocked, start, 0, nbrs, s2);
    RelaxAllChanges(blocked, start, 0, nbrs, s2);
    RunKeepsNear(adj, blocked, end, s3);
    forall w | Step(adj, blocked, start, w) && w != start
      ensures w in s3.dist && s3.dist[w] <= 1
    {
      var k :| 0 <= k < |nbrs| && nbrs[k] == w;
    }
  }

  /**
   When every step out of `start` leads to a cell already at distance 1 or
   less, the search pops `start`, pushes nothing and gives up at once, and
   the cells keep every link they held.
   */
  lemma {:induction false} SearchIdle(adj: Lists, blocked: set<Pos>, start: Pos, end: Pos,
                                      dist0: map<Pos, nat>, prev0: map<Pos, Pos>)
    requires OnGrid(adj) && InBounds(start) && start != end
    requires forall w :: Step(adj, blocked, start, w) && w != start ==> w in dist0 && dist0[w] <= 1
    ensures Search(adj, blocked, start, end, dist0, prev0) == (false, dist0[start := 0], prev0)
  {
    var s0 := Initial(start, dist0, prev0);
    var s2 := State({start}, dist0[start := 0], prev0, []);
    StartIdle(adj, blocked, start, dist0, prev0);
    FirstPass(adj, blocked, start, end, dist0, prev0);
    assert Pass(adj, blocked, end, s0) == (false, s2);
    assert Run(adj, blocked, end, s2) == (false, s2);
    assert Run(adj, blocked, end, s0) == (false, s2);
  }

  /** Relaxing the neighbours of `start` changes nothing when every step out of it already ends within distance 1. */
  lemma StartIdle(adj: Lists, blocked: set<Pos>, start: Pos, dist0: map<Pos, nat>, prev0: map<Pos, Pos>)
    requires OnGrid(adj) && InBounds(start)
    requires forall w :: Step(adj, blocked, start, w) && w != start ==> w in dist0 && dist0[w] <= 1
    ensures var s2 := State({start}, dist0[start := 0], prev0, []);
      RelaxAll(blocked, start, 0, Nbrs(adj, start), s2) == s2
  {
    var s2 := State({start}, dist0[start := 0], prev0, []);
    var nbrs := Nbrs(adj, start);
    forall k | 0 <= k < |nbrs|
      ensures nbrs[k] in s2.visited || nbrs[k] in blocked || !Improves(s2.dist, nbrs[k], 1)
    {
      if nbrs[k] != start && nbrs[k] !in blocked {
        assert Step(adj, blocked, start, nbrs[k]);
      }
    }
    RelaxAllIdle(blocked, start, 0, nbrs, s2);
  }

  /**
   The cell `reconstruct_path` stands on after `k` rounds of its
   `while current.previous` loop from `v`, or where the loop stopped.
   */
  function Back(prev: map<Pos, Pos>, v: Pos, k: nat): Pos
    decreases k
  {
    if k == 0 || v !in prev then v else Back(prev, prev[v], k - 1)
  }

  /** The `while current.previous` loop from `v` never ends: every cell it stands on has a link. */
  ghost predicate Endless(prev: map<Pos, Pos>, v: Pos) {
    forall k: nat :: Back(prev, v, k) in prev
  }

  /** Links that never leave a set of linked cells keep the walk inside it for ever. */
  lemma {:induction false} BackStaysIn(prev: map<Pos, Pos>, c: set<Pos>, v: Pos, k: nat)
    requires v in c && forall u :: u in c ==> u in prev && prev[u] in c
    ensures Back(prev, v, k) in c && Back(prev, v, k) in prev
    decreases k
  {
    if k > 0 {
      BackStaysIn(prev, c, prev[v], k - 1);
    }
  }

  /** Along well-formed links the walk from `v` stands on `start` after `dist[v]` rounds. */
  lemma {:induction false} BackReachesStart(dist: map<Pos, nat>, prev: map<Pos, Pos>, start: Pos, v: Pos)
    requires Linked(dist, prev, start) && v in dist
    ensures Back(prev, v, dist[v]) == start
    decreases dist[v]
  {
    if v in prev {
      BackReachesStart(dist, prev, start, prev[v]);
    }
  }

  /** Along well-formed links the `while current.previous` loop ends, at `start`, which has no link. */
  lemma LinkedWalkEnds(dist: map<Pos, nat>, prev: map<Pos, Pos>, start: Pos, v: Pos)
    requires Linked(dist, prev, start) && v in dist
    ensures !Endless(prev, v)
  {
    BackReachesStart(dist, prev, start, v);
  }
}
