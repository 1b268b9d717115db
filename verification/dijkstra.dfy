/**
 The shortest-path search (`dijkstra`) of the newest version
 (src/Shortest_Path_Game2.py), with unit edge weights and a frontier of
 (distance, cell) entries from which the least distance is extracted. It
 resets every distance and link first, tests a popped cell for `end` before
 marking it visited, expands a popped cell even when it was expanded before,
 and relaxes neighbours from the distance stored in the popped entry.
 Neighbours in the `blocked` set (the obstacle walls) are skipped.

 The predicates and lemmas about the solver state are shared with the search
 of the two older versions in `OlderDijkstra`.
 */
module Dijkstra {
  import opened Board
  import opened Adjacency
  import opened Paths
  import opened Chains

  datatype Entry = Entry(key: nat, cell: Pos)

  /**
   Extract-min: the first entry with the least distance, so that ties go to
   the entry inserted first.
   */
  function MinIndex(pq: seq<Entry>): (m: nat)
    requires |pq| > 0
    ensures m < |pq|
    ensures forall i :: 0 <= i < |pq| ==> pq[m].key <= pq[i].key
    ensures forall i :: 0 <= i < m ==> pq[m].key < pq[i].key
  {
    if |pq| == 1 then 0
    else
      var m := MinIndex(pq[..|pq| - 1]);
      if pq[|pq| - 1].key < pq[m].key then |pq| - 1 else m
  }

  /**
   Every reached cell not yet expanded waits in the frontier with its current
   distance, and no entry understates its cell's distance.
   */
  predicate Frontier(pq: seq<Entry>, dist: map<Pos, nat>, visited: set<Pos>) {
    && (forall v :: v in dist && v !in visited ==> Entry(dist[v], v) in pq)
    && (forall i :: 0 <= i < |pq| ==> pq[i].cell in dist && dist[pq[i].cell] <= pq[i].key && InBounds(pq[i].cell))
  }

  /** The shape of the solver state between two extractions. */
  ghost predicate Frame(adj: Lists, blocked: set<Pos>, start: Pos, visited: set<Pos>,
                        dist: map<Pos, nat>, prev: map<Pos, Pos>, pq: seq<Entry>) {
    && Linked(dist, prev, start)
    && StepLinked(adj, blocked, prev)
    && (forall v :: v in prev ==> prev[v] in visited)
    && (forall v :: v in visited ==> v in dist && InBounds(v))
    && Frontier(pq, dist, visited)
  }

  /** Expanded cells carry a distance no route beats. */
  ghost predicate Settled(adj: Lists, blocked: set<Pos>, start: Pos, visited: set<Pos>, dist: map<Pos, nat>) {
    forall p :: IsPath(adj, blocked, p) && p[0] == start && p[|p| - 1] in visited ==>
      p[|p| - 1] in dist && dist[p[|p| - 1]] <= |p| - 1
  }

  /** Every step out of an expanded cell has been relaxed. */
  ghost predicate Relaxed(adj: Lists, blocked: set<Pos>, visited: set<Pos>, dist: map<Pos, nat>) {
    forall u, w :: u in visited && u in dist && Step(adj, blocked, u, w) && w !in visited ==>
      w in dist && dist[w] <= dist[u] + 1
  }

  /** Every step out of `x` to an unexpanded cell has been relaxed from distance `base`. */
  ghost predicate RelaxedFrom(adj: Lists, blocked: set<Pos>, visited: set<Pos>, x: Pos, base: nat, dist: map<Pos, nat>) {
    forall w :: Step(adj, blocked, x, w) && w !in visited ==> w in dist && dist[w] <= base + 1
  }

  /**
   Any route from `start` to an unexpanded cell leaves the expanded region at
   some unexpanded cell `p[i]` already reached at distance at most `i`.
   */
  lemma {:induction false} Crossing(adj: Lists, blocked: set<Pos>, start: Pos, visited: set<Pos>,
                                    dist: map<Pos, nat>, p: seq<Pos>)
    requires IsPath(adj, blocked, p) && p[0] == start && p[|p| - 1] !in visited
    requires start in dist && dist[start] == 0
    requires forall v :: v in visited ==> v in dist
    requires Settled(adj, blocked, start, visited, dist) && Relaxed(adj, blocked, visited, dist)
    ensures exists i :: 0 <= i < |p| && p[i] !in visited && p[i] in dist && dist[p[i]] <= i
  {
    var i := 0;
    while p[i] in visited
      invariant 0 <= i < |p|
      invariant i > 0 ==> p[i - 1] in visited
      decreases |p| - i
    {
      i := i + 1;
    }
    if i > 0 {
      PrefixIsPath(adj, blocked, p, i);
      var q := p[..i];
      assert q[|q| - 1] == p[i - 1];
      assert dist[p[i - 1]] <= i - 1;
      assert Step(adj, blocked, p[i - 1], p[i]);
    }
    assert p[i] !in visited && p[i] in dist && dist[p[i]] <= i;
  }

  /**
   The least entry of the frontier, when its cell was not expanded yet, is
   final: its key is the cell's distance and no route to the cell is shorter.
   */
  lemma {:induction false} PopIsFinal(adj: Lists, blocked: set<Pos>, start: Pos, visited: set<Pos>,
                                      dist: map<Pos, nat>, prev: map<Pos, Pos>, pq: seq<Entry>, m: nat)
    requires Frame(adj, blocked, start, visited, dist, prev, pq)
    requires Settled(adj, blocked, start, visited, dist) && Relaxed(adj, blocked, visited, dist)
    requires m < |pq| && forall i :: 0 <= i < |pq| ==> pq[m].key <= pq[i].key
    requires pq[m].cell !in visited
    ensures pq[m].cell in dist && dist[pq[m].cell] == pq[m].key
    ensures NoShorter(adj, blocked, start, pq[m].cell, pq[m].key)
  {
    var x := pq[m].cell;
    assert Entry(dist[x], x) in pq;
    forall p | PathFromTo(adj, blocked, p, start, x)
      ensures pq[m].key <= |p| - 1
    {
      Crossing(adj, blocked, start, visited, dist, p);
      var i :| 0 <= i < |p| && p[i] !in visited && p[i] in dist && dist[p[i]] <= i;
      assert Entry(dist[p[i]], p[i]) in pq;
    }
  }

  /** With an empty frontier, no cell outside the expanded region can be reached. */
  lemma {:induction false} EmptyFrontierUnreachable(adj: Lists, blocked: set<Pos>, start: Pos, visited: set<Pos>,
                                                    dist: map<Pos, nat>, prev: map<Pos, Pos>, v: Pos)
    requires Frame(adj, blocked, start, visited, dist, prev, [])
    requires Settled(adj, blocked, start, visited, dist) && Relaxed(adj, blocked, visited, dist)
    requires v !in visited
    ensures !Reachable(adj, blocked, start, v)
  {
    if Reachable(adj, blocked, start, v) {
      var p :| PathFromTo(adj, blocked, p, start, v);
      Crossing(adj, blocked, start, visited, dist, p);
    }
  }

  /** Removing the popped entry keeps every entry of an unexpanded cell. */
  lemma {:induction false} FrontierAfterPop(pq: seq<Entry>, m: nat, dist: map<Pos, nat>, visited: set<Pos>)
    requires m < |pq| && Frontier(pq, dist, visited) && pq[m].cell in visited
    ensures Frontier(pq[..m] + pq[m + 1..], dist, visited)
  {
    var rest := pq[..m] + pq[m + 1..];
    forall v | v in dist && v !in visited
      ensures Entry(dist[v], v) in rest
    {
      var k :| 0 <= k < |pq| && pq[k] == Entry(dist[v], v);
      assert k != m;
      if k < m {
        assert rest[k] == pq[k];
      } else {
        assert rest[k - 1] == pq[k];
      }
    }
    forall i | 0 <= i < |rest|
      ensures rest[i].cell in dist && dist[rest[i].cell] <= rest[i].key && InBounds(rest[i].cell)
    {
      if i < m {
        assert rest[i] == pq[i];
      } else {
        assert rest[i] == pq[i + 1];
      }
    }
  }

  /** Popping `pq[m]` and counting its cell as expanded keeps the state's shape. */
  lemma {:induction false} PopKeepsFrame(adj: Lists, blocked: set<Pos>, start: Pos, visited: set<Pos>,
                                         dist: map<Pos, nat>, prev: map<Pos, Pos>, pq: seq<Entry>, m: nat)
    requires Frame(adj, blocked, start, visited, dist, prev, pq) && m < |pq|
    ensures Frame(adj, blocked, start, visited + {pq[m].cell}, dist, prev, pq[..m] + pq[m + 1..])
  {
    FrontierAfterPop(pq, m, dist, visited + {pq[m].cell});
  }

  /** Adding a cell whose distance is final keeps the expanded region settled. */
  lemma {:induction false} SettledGrows(adj: Lists, blocked: set<Pos>, start: Pos, visited: set<Pos>,
                                        dist: map<Pos, nat>, dist': map<Pos, nat>, x: Pos)
    requires Settled(adj, blocked, start, visited, dist)
    requires forall v :: v in visited + {x} ==> v in dist && v in dist' && dist'[v] == dist[v]
    requires NoShorter(adj, blocked, start, x, dist[x])
    ensures Settled(adj, blocked, start, visited + {x}, dist')
  {
    forall p | IsPath(adj, blocked, p) && p[0] == start && p[|p| - 1] in visited + {x}
      ensures p[|p| - 1] in dist' && dist'[p[|p| - 1]] <= |p| - 1
    {
      if p[|p| - 1] == x {
        assert PathFromTo(adj, blocked, p, start, x);
      }
    }
  }

  /** Relaxing every step out of `x` from its final distance keeps the region relaxed. */
  lemma {:induction false} RelaxedGrows(adj: Lists, blocked: set<Pos>, visited: set<Pos>,
                                        dist: map<Pos, nat>, dist': map<Pos, nat>, x: Pos)
    requires Relaxed(adj, blocked, visited, dist)
    requires forall v :: v in visited + {x} ==> v in dist && v in dist' && dist'[v] == dist[v]
    requires forall v :: v in dist ==> v in dist' && dist'[v] <= dist[v]
    requires RelaxedFrom(adj, blocked, visited + {x}, x, dist[x], dist')
    ensures Relaxed(adj, blocked, visited + {x}, dist')
  {
  }

  /** Linking an unreached or improved cell `w` to `u` at distance `dist[u] + 1` keeps the links consistent. */
  lemma LinkOne(dist: map<Pos, nat>, prev: map<Pos, Pos>, start: Pos, u: Pos, w: Pos)
    requires Linked(dist, prev, start) && u in dist && u != w && w != start
    requires forall v :: v in prev ==> prev[v] != w
    ensures Linked(dist[w := dist[u] + 1], prev[w := u], start)
  {
  }

  /** Recording distance `d` for the unexpanded cell `w`, with a new entry, keeps the frontier. */
  lemma FrontierOne(pq: seq<Entry>, dist: map<Pos, nat>, visited: set<Pos>, w: Pos, d: nat)
    requires Frontier(pq, dist, visited) && w !in visited && InBounds(w)
    requires w !in dist || d < dist[w]
    ensures Frontier(pq + [Entry(d, w)], dist[w := d], visited)
  {
    var pq', dist' := pq + [Entry(d, w)], dist[w := d];
    forall v | v in dist' && v !in visited
      ensures Entry(dist'[v], v) in pq'
    {
      if v != w {
        assert Entry(dist[v], v) in pq;
      } else {
        assert pq'[|pq|] == Entry(d, w);
      }
    }
    forall i | 0 <= i < |pq'|
      ensures pq'[i].cell in dist' && dist'[pq'[i].cell] <= pq'[i].key && InBounds(pq'[i].cell)
    {
      if i < |pq| {
        assert pq'[i] == pq[i];
      }
    }
  }

  /** One successful relaxation of the step from expanded `x` to unexpanded `w` keeps the state's shape. */
  lemma {:induction false} RelaxKeepsFrame(adj: Lists, blocked: set<Pos>, start: Pos, visited: set<Pos>,
                                           dist: map<Pos, nat>, prev: map<Pos, Pos>, pq: seq<Entry>, x: Pos, w: Pos, d: nat)
    requires Frame(adj, blocked, start, visited, dist, prev, pq)
    requires x in visited && w !in visited && Step(adj, blocked, x, w) && InBounds(w)
    requires d == dist[x] + 1 && (w !in dist || d < dist[w])
    ensures Frame(adj, blocked, start, visited, dist[w := d], prev[w := x], pq + [Entry(d, w)])
  {
    var dist', prev', pq' := dist[w := d], prev[w := x], pq + [Entry(d, w)];
    RelaxKeepsLinks(adj, blocked, start, visited, dist, prev, x, w, d);
    FrontierOne(pq, dist, visited, w, d);
    assert forall v :: v in prev' ==> prev'[v] in visited by {
      forall v | v in prev'
        ensures prev'[v] in visited
      {
        if v != w {
          assert prev'[v] == prev[v];
        }
      }
    }
    assert forall v :: v in visited ==> v in dist' && InBounds(v);
  }

  /** The links part of `RelaxKeepsFrame`: linking `w` to `x` keeps every chain falling by one to `start`, along steps, from expanded cells. */
  lemma {:induction false} RelaxKeepsLinks(adj: Lists, blocked: set<Pos>, start: Pos, visited: set<Pos>,
                                           dist: map<Pos, nat>, prev: map<Pos, Pos>, x: Pos, w: Pos, d: nat)
    requires Linked(dist, prev, start) && StepLinked(adj, blocked, prev)
    requires forall v :: v in prev ==> prev[v] in visited
    requires x in visited && x in dist && w !in visited && Step(adj, blocked, x, w)
    requires d == dist[x] + 1 && (w !in dist || d < dist[w])
    ensures Linked(dist[w := d], prev[w := x], start)
    ensures StepLinked(adj, blocked, prev[w := x])
  {
    assert x != w && w != start;
    assert forall v :: v in prev ==> prev[v] != w;
    LinkOne(dist, prev, start, x, w);
    var prev' := prev[w := x];
    forall v | v in prev'
      ensures Step(adj, blocked, prev'[v], v)
    {
      if v != w {
        assert prev'[v] == prev[v];
      }
    }
  }

  /**
   The body of the `for neighbor in ...` loop for one neighbour `w` of `x`:
   skip it when expanded or blocked, otherwise lower its distance to
   `base + 1`, with `x` as predecessor and a new frontier entry, when that
   is strictly better.
   */
  method Relax(adj: Lists, blocked: set<Pos>, start: Pos, visited: set<Pos>, x: Pos, base: nat, w: Pos,
               dist0: map<Pos, nat>, dist1: map<Pos, nat>, prev1: map<Pos, Pos>, pq1: seq<Entry>)
    returns (dist: map<Pos, nat>, prev: map<Pos, Pos>, pq: seq<Entry>)
    requires OnGrid(adj) && x in visited && (Step(adj, blocked, x, w) || w in blocked)
    requires Frame(adj, blocked, start, visited, dist1, prev1, pq1)
    requires x in dist0 && (base == dist0[x] || RelaxedFrom(adj, blocked, visited, x, base, dist0))
    requires forall v :: v in visited ==> v in dist1 && v in dist0 && dist1[v] == dist0[v]
    requires forall v :: v in dist0 ==> v in dist1 && dist1[v] <= dist0[v]
    ensures Frame(adj, blocked, start, visited, dist, prev, pq)
    ensures forall v :: v in visited ==> v in dist && dist[v] == dist1[v]
    ensures forall v :: v in dist1 ==> v in dist && dist[v] <= dist1[v]
    ensures w !in visited && w !in blocked ==> w in dist && dist[w] <= base + 1
    ensures (w in dist1 && dist1[w] <= base + 1) || w in visited || w in blocked ==>
      dist == dist1 && prev == prev1 && pq == pq1
    ensures w !in visited && w !in blocked && (w !in dist1 || base + 1 < dist1[w]) ==>
      dist == dist1[w := base + 1] && prev == prev1[w := x] && pq == pq1 + [Entry(base + 1, w)]
  {
    dist, prev, pq := dist1, prev1, pq1;
    if w !in visited && w !in blocked {
      var nd := base + 1;
      if w !in dist || nd < dist[w] {
        assert base == dist1[x];
        RelaxKeepsFrame(adj, blocked, start, visited, dist, prev, pq, x, w, nd);
        dist := dist[w := nd];
        prev := prev[w := x];
        pq := pq + [Entry(nd, w)];
      }
    }
  }

  /**
   The state of the neighbour loop of `Expand` after the first `j`
   neighbours: the shape is kept, expanded cells keep their distances, no
   distance grows, the first `j` neighbours are relaxed from `base`, every
   changed distance is `base + 1` on a step out of `x` linked back to `x`,
   and nothing has changed when `base` was no better than what was recorded.
   */
  ghost predicate Scanned(adj: Lists, blocked: set<Pos>, start: Pos, visited: set<Pos>, x: Pos, base: nat,
                          nbrs: seq<Pos>, j: nat, dist0: map<Pos, nat>, prev0: map<Pos, Pos>, pq0: seq<Entry>,
                          dist: map<Pos, nat>, prev: map<Pos, Pos>, pq: seq<Entry>) {
    && j <= |nbrs|
    && Frame(adj, blocked, start, visited, dist, prev, pq)
    && (forall v :: v in visited ==> v in dist && v in dist0 && dist[v] == dist0[v])
    && (forall v :: v in dist0 ==> v in dist && dist[v] <= dist0[v])
    && (forall k :: 0 <= k < j && nbrs[k] !in visited && nbrs[k] !in blocked ==>
          nbrs[k] in dist && dist[nbrs[k]] <= base + 1)
    && Changed(adj, blocked, x, base, dist0, dist, prev)
    && (RelaxedFrom(adj, blocked, visited, x, base, dist0) ==> dist == dist0 && prev == prev0 && pq == pq0)
  }

  /** Every cell whose distance differs from `dist0` was reached by a step out of `x`, at `base + 1`, with `x` as predecessor. */
  ghost predicate Changed(adj: Lists, blocked: set<Pos>, x: Pos, base: nat,
                          dist0: map<Pos, nat>, dist: map<Pos, nat>, prev: map<Pos, Pos>) {
    forall v :: v in dist && (v !in dist0 || dist[v] != dist0[v]) ==>
      Step(adj, blocked, x, v) && dist[v] == base + 1 && v in prev && prev[v] == x
  }

  /** One pass of the neighbour loop: relaxing `nbrs[j]` extends the scan by one neighbour. */
  method RelaxNext(adj: Lists, blocked: set<Pos>, start: Pos, visited: set<Pos>, x: Pos, base: nat,
                   nbrs: seq<Pos>, j: nat, dist0: map<Pos, nat>, prev0: map<Pos, Pos>, pq0: seq<Entry>,
                   dist1: map<Pos, nat>, prev1: map<Pos, Pos>, pq1: seq<Entry>)
    returns (dist: map<Pos, nat>, prev: map<Pos, Pos>, pq: seq<Entry>)
    requires OnGrid(adj) && x in visited && j < |nbrs|
    requires Step(adj, blocked, x, nbrs[j]) || nbrs[j] in blocked
    requires x in dist0 && (base == dist0[x] || RelaxedFrom(adj, blocked, visited, x, base, dist0))
    requires Scanned(adj, blocked, start, visited, x, base, nbrs, j, dist0, prev0, pq0, dist1, prev1, pq1)
    ensures Scanned(adj, blocked, start, visited, x, base, nbrs, j + 1, dist0, prev0, pq0, dist, prev, pq)
  {
    var w := nbrs[j];
    assert RelaxedFrom(adj, blocked, visited, x, base, dist0) && w !in visited && w !in blocked ==>
      w in dist1 && dist1[w] <= base + 1;
    dist, prev, pq := Relax(adj, blocked, start, visited, x, base, w, dist0, dist1, prev1, pq1);
    if w !in visited && w !in blocked && (w !in dist1 || base + 1 < dist1[w]) {
      ScanLower(adj, blocked, start, visited, x, base, nbrs, j, dist0, prev0, pq0, dist1, prev1, pq1);
    } else {
      ScanSkip(adj, blocked, start, visited, x, base, nbrs, j, dist0, prev0, pq0, dist1, prev1, pq1);
    }
  }

  /** A neighbour already at `base + 1` or less, expanded or blocked extends the scan without a change. */
  lemma {:induction false} ScanSkip(adj: Lists, blocked: set<Pos>, start: Pos, visited: set<Pos>, x: Pos, base: nat,
                                    nbrs: seq<Pos>, j: nat, dist0: map<Pos, nat>, prev0: map<Pos, Pos>, pq0: seq<Entry>,
                                    dist1: map<Pos, nat>, prev1: map<Pos, Pos>, pq1: seq<Entry>)
    requires j < |nbrs| && Scanned(adj, blocked, start, visited, x, base, nbrs, j, dist0, prev0, pq0, dist1, prev1, pq1)
    requires nbrs[j] !in visited && nbrs[j] !in blocked ==> nbrs[j] in dist1 && dist1[nbrs[j]] <= base + 1
    ensures Scanned(adj, blocked, start, visited, x, base, nbrs, j + 1, dist0, prev0, pq0, dist1, prev1, pq1)
  {
  }

  /** A neighbour whose distance `base + 1` improves extends the scan by exactly that change. */
  lemma {:induction false} ScanLower(adj: Lists, blocked: set<Pos>, start: Pos, visited: set<Pos>, x: Pos, base: nat,
                                     nbrs: seq<Pos>, j: nat, dist0: map<Pos, nat>, prev0: map<Pos, Pos>, pq0: seq<Entry>,
                                     dist1: map<Pos, nat>, prev1: map<Pos, Pos>, pq1: seq<Entry>)
    requires j < |nbrs| && Scanned(adj, blocked, start, visited, x, base, nbrs, j, dist0, prev0, pq0, dist1, prev1, pq1)
    requires Step(adj, blocked, x, nbrs[j]) && nbrs[j] !in visited
    requires nbrs[j] !in dist1 || base + 1 < dist1[nbrs[j]]
    requires !RelaxedFrom(adj, blocked, visited, x, base, dist0)
    requires Frame(adj, blocked, start, visited, dist1[nbrs[j] := base + 1], prev1[nbrs[j] := x], pq1 + [Entry(base + 1, nbrs[j])])
    ensures Scanned(adj, blocked, start, visited, x, base, nbrs, j + 1, dist0, prev0, pq0,
                    dist1[nbrs[j] := base + 1], prev1[nbrs[j] := x], pq1 + [Entry(base + 1, nbrs[j])])
  {
    ChangedOne(adj, blocked, x, base, dist0, dist1, prev1, nbrs[j]);
  }

  /** Lowering one step target of `x` to `base + 1`, linked to `x`, keeps every change explained. */
  lemma {:induction false} ChangedOne(adj: Lists, blocked: set<Pos>, x: Pos, base: nat,
                                      dist0: map<Pos, nat>, dist1: map<Pos, nat>, prev1: map<Pos, Pos>, w: Pos)
    requires Changed(adj, blocked, x, base, dist0, dist1, prev1) && Step(adj, blocked, x, w)
    ensures Changed(adj, blocked, x, base, dist0, dist1[w := base + 1], prev1[w := x])
  {
  }

  /** Before the first neighbour, nothing has changed. */
  lemma {:induction false} ScanStart(adj: Lists, blocked: set<Pos>, start: Pos, visited: set<Pos>, x: Pos, base: nat,
                                     nbrs: seq<Pos>, dist0: map<Pos, nat>, prev0: map<Pos, Pos>, pq0: seq<Entry>)
    requires Frame(adj, blocked, start, visited, dist0, prev0, pq0)
    ensures Scanned(adj, blocked, start, visited, x, base, nbrs, 0, dist0, prev0, pq0, dist0, prev0, pq0)
  {
  }

  /**
   A scan over all of `x`'s list has relaxed every step out of `x` from
   `base`, and keeps what `Expand` promises about the other cells.
   */
  lemma {:induction false} ScanComplete(adj: Lists, blocked: set<Pos>, start: Pos, visited: set<Pos>, x: Pos, base: nat,
                                        dist0: map<Pos, nat>, prev0: map<Pos, Pos>, pq0: seq<Entry>,
                                        dist: map<Pos, nat>, prev: map<Pos, Pos>, pq: seq<Entry>)
    requires Scanned(adj, blocked, start, visited, x, base, if x in adj then adj[x] else [],
                     |if x in adj then adj[x] else []|, dist0, prev0, pq0, dist, prev, pq)
    ensures Frame(adj, blocked, start, visited, dist, prev, pq)
    ensures forall v :: v in visited ==> v in dist && dist[v] == dist0[v]
    ensures forall v :: v in dist0 ==> v in dist && dist[v] <= dist0[v]
    ensures RelaxedFrom(adj, blocked, visited, x, base, dist)
    ensures Changed(adj, blocked, x, base, dist0, dist, prev)
    ensures RelaxedFrom(adj, blocked, visited, x, base, dist0) ==> dist == dist0 && prev == prev0 && pq == pq0
  {
    var nbrs := if x in adj then adj[x] else [];
    forall w | Step(adj, blocked, x, w) && w !in visited
      ensures w in dist && dist[w] <= base + 1
    {
      var k :| 0 <= k < |nbrs| && nbrs[k] == w;
    }
  }

  /**
   Relaxes every neighbour on `x`'s list from distance `base`: a neighbour
   not yet expanded and not blocked whose distance `base + 1` improves on its
   current one gets that distance, `x` as predecessor, and a new frontier
   entry. Those are the only changes, and when `base` is no better than
   what is already recorded, there are none.
   */
  method Expand(adj: Lists, blocked: set<Pos>, start: Pos, visited: set<Pos>, x: Pos, base: nat,
                dist0: map<Pos, nat>, prev0: map<Pos, Pos>, pq0: seq<Entry>)
    returns (dist: map<Pos, nat>, prev: map<Pos, Pos>, pq: seq<Entry>)
    requires OnGrid(adj) && x in visited
    requires Frame(adj, blocked, start, visited, dist0, prev0, pq0)
    requires base == dist0[x] || RelaxedFrom(adj, blocked, visited, x, base, dist0)
    ensures Frame(adj, blocked, start, visited, dist, prev, pq)
    ensures forall v :: v in visited ==> v in dist && dist[v] == dist0[v]
    ensures forall v :: v in dist0 ==> v in dist && dist[v] <= dist0[v]
    ensures RelaxedFrom(adj, blocked, visited, x, base, dist)
    ensures Changed(adj, blocked, x, base, dist0, dist, prev)
    ensures RelaxedFrom(adj, blocked, visited, x, base, dist0) ==> dist == dist0 && prev == prev0 && pq == pq0
  {
    var nbrs := if x in adj then adj[x] else [];
    dist, prev, pq := ScanAll(adj, blocked, start, visited, x, base, nbrs, dist0, prev0, pq0);
    ScanComplete(adj, blocked, start, visited, x, base, dist0, prev0, pq0, dist, prev, pq);
  }

  /** The `for neighbor in current_node.neighbors` loop over `nbrs`, the steps out of `x` and blocked cells. */
  method ScanAll(adj: Lists, blocked: set<Pos>, start: Pos, visited: set<Pos>, x: Pos, base: nat, nbrs: seq<Pos>,
                 dist0: map<Pos, nat>, prev0: map<Pos, Pos>, pq0: seq<Entry>)
    returns (dist: map<Pos, nat>, prev: map<Pos, Pos>, pq: seq<Entry>)
    requires OnGrid(adj) && x in visited
    requires forall k :: 0 <= k < |nbrs| ==> Step(adj, blocked, x, nbrs[k]) || nbrs[k] in blocked
    requires Frame(adj, blocked, start, visited, dist0, prev0, pq0)
    requires base == dist0[x] || RelaxedFrom(adj, blocked, visited, x, base, dist0)
    ensures Scanned(adj, blocked, start, visited, x, base, nbrs, |nbrs|, dist0, prev0, pq0, dist, prev, pq)
  {
    dist, prev, pq := dist0, prev0, pq0;
    var j := 0;
    ScanStart(adj, blocked, start, visited, x, base, nbrs, dist0, prev0, pq0);
    while j < |nbrs|
      invariant Scanned(adj, blocked, start, visited, x, base, nbrs, j, dist0, prev0, pq0, dist, prev, pq)
    {
      dist, prev, pq := RelaxNext(adj, blocked, start, visited, x, base, nbrs, j, dist0, prev0, pq0, dist, prev, pq);
      j := j + 1;
    }
  }

  /** The loop invariant of the search: its shape, and the two facts that make it correct. */
  ghost predicate Searching(adj: Lists, blocked: set<Pos>, start: Pos, end: Pos, visited: set<Pos>,
                            dist: map<Pos, nat>, prev: map<Pos, Pos>, pq: seq<Entry>) {
    && Frame(adj, blocked, start, visited, dist, prev, pq)
    && Settled(adj, blocked, start, visited, dist)
    && Relaxed(adj, blocked, visited, dist)
    && end !in visited
  }

  /** What the search promises once `end` has been extracted. */
  ghost predicate FoundEnd(adj: Lists, blocked: set<Pos>, start: Pos, end: Pos, dist: map<Pos, nat>, prev: map<Pos, Pos>) {
    && Linked(dist, prev, start) && StepLinked(adj, blocked, prev)
    && Reachable(adj, blocked, start, end)
    && end in dist && Distance(adj, blocked, start, end, dist[end])
  }

  /** Extracting `end` from the frontier ends the search with its distance final. */
  lemma {:induction false} EndExtracted(adj: Lists, blocked: set<Pos>, start: Pos, end: Pos, visited: set<Pos>,
                                        dist: map<Pos, nat>, prev: map<Pos, Pos>, pq: seq<Entry>, m: nat)
    requires Searching(adj, blocked, start, end, visited, dist, prev, pq)
    requires m < |pq| && forall i :: 0 <= i < |pq| ==> pq[m].key <= pq[i].key
    requires pq[m].cell == end
    ensures FoundEnd(adj, blocked, start, end, dist, prev)
  {
    PopIsFinal(adj, blocked, start, visited, dist, prev, pq, m);
    RouteIsPath(adj, blocked, dist, prev, start, end);
  }

  /** Expanding `x` at its final distance, with every step out of it relaxed, keeps the search correct. */
  lemma {:induction false} Grown(adj: Lists, blocked: set<Pos>, start: Pos, end: Pos, visited: set<Pos>, x: Pos,
                                 dist: map<Pos, nat>, prev: map<Pos, Pos>, rest: seq<Entry>,
                                 dist': map<Pos, nat>, prev': map<Pos, Pos>, pq': seq<Entry>)
    requires Settled(adj, blocked, start, visited, dist) && Relaxed(adj, blocked, visited, dist)
    requires Frame(adj, blocked, start, visited + {x}, dist, prev, rest)
    requires Frame(adj, blocked, start, visited + {x}, dist', prev', pq')
    requires forall v :: v in visited + {x} ==> v in dist' && dist'[v] == dist[v]
    requires forall v :: v in dist ==> v in dist' && dist'[v] <= dist[v]
    requires x in dist && NoShorter(adj, blocked, start, x, dist[x])
    requires RelaxedFrom(adj, blocked, visited + {x}, x, dist[x], dist')
    requires end !in visited + {x}
    ensures Searching(adj, blocked, start, end, visited + {x}, dist', prev', pq')
  {
    SettledGrows(adj, blocked, start, visited, dist, dist', x);
    RelaxedGrows(adj, blocked, visited, dist, dist', x);
  }

  /**
   Expands the cell of the least entry `pq[m]` when it was not expanded
   before and is not `end`: its distance is final, it joins the expanded
   region, and its neighbours are relaxed from that distance.
   */
  method ExpandNew(adj: Lists, blocked: set<Pos>, start: Pos, end: Pos, visited: set<Pos>,
                   dist: map<Pos, nat>, prev: map<Pos, Pos>, pq: seq<Entry>, m: nat)
    returns (dist': map<Pos, nat>, prev': map<Pos, Pos>, pq': seq<Entry>)
    requires OnGrid(adj) && m < |pq| && forall i :: 0 <= i < |pq| ==> pq[m].key <= pq[i].key
    requires Searching(adj, blocked, start, end, visited, dist, prev, pq)
    requires pq[m].cell != end && pq[m].cell !in visited
    ensures Searching(adj, blocked, start, end, visited + {pq[m].cell}, dist', prev', pq')
  {
    var x, rest := pq[m].cell, pq[..m] + pq[m + 1..];
    assert end !in visited + {x};
    PopKeepsFrame(adj, blocked, start, visited, dist, prev, pq, m);
    PopIsFinal(adj, blocked, start, visited, dist, prev, pq, m);
    dist', prev', pq' := Expand(adj, blocked, start, visited + {x}, x, dist[x], dist, prev, rest);
    Grown(adj, blocked, start, end, visited, x, dist, prev, rest, dist', prev', pq');
  }

  /**
   Expands again the cell of the least entry `pq[m]`, already expanded, from
   `base`, which is no better than its recorded distance: the entry leaves
   the frontier and nothing else changes.
   */
  method ExpandAgain(adj: Lists, blocked: set<Pos>, start: Pos, end: Pos, visited: set<Pos>,
                     dist: map<Pos, nat>, prev: map<Pos, Pos>, pq: seq<Entry>, m: nat, base: nat)
    returns (dist': map<Pos, nat>, prev': map<Pos, Pos>, pq': seq<Entry>)
    requires OnGrid(adj) && m < |pq|
    requires Searching(adj, blocked, start, end, visited, dist, prev, pq)
    requires pq[m].cell in visited && dist[pq[m].cell] <= base
    ensures Searching(adj, blocked, start, end, visited, dist', prev', pq')
    ensures dist' == dist && prev' == prev && pq' == pq[..m] + pq[m + 1..]
  {
    var x := pq[m].cell;
    FrontierAfterPop(pq, m, dist, visited);
    assert RelaxedFrom(adj, blocked, visited, x, base, dist);
    dist', prev', pq' := Expand(adj, blocked, start, visited, x, base, dist, prev, pq[..m] + pq[m + 1..]);
  }

  /**
   One pass of the `while pq` loop: extract the least entry, stop if it is
   `end`, otherwise mark it visited and relax its neighbours from the
   entry's distance. Each pass either expands a new cell or shortens the
   frontier.
   */
  method Extract(adj: Lists, blocked: set<Pos>, start: Pos, end: Pos,
                 visited: set<Pos>, dist: map<Pos, nat>, prev: map<Pos, Pos>, pq: seq<Entry>)
    returns (found: bool, visited': set<Pos>, dist': map<Pos, nat>, prev': map<Pos, Pos>, pq': seq<Entry>)
    requires OnGrid(adj) && pq != []
    requires Searching(adj, blocked, start, end, visited, dist, prev, pq)
    ensures found ==> FoundEnd(adj, blocked, start, end, dist', prev')
    ensures !found ==> Searching(adj, blocked, start, end, visited', dist', prev', pq')
    ensures !found ==> (visited' == visited && |pq'| < |pq|) || (visited < visited' <= AllCells())
  {
    var m := MinIndex(pq);
    var e := pq[m];
    var x := e.cell;
    found, visited', dist', prev', pq' := false, visited, dist, prev, pq;
    if x == end {
      EndExtracted(adj, blocked, start, end, visited, dist, prev, pq, m);
      found := true;
      return;
    }
    if x in visited {
      dist', prev', pq' := ExpandAgain(adj, blocked, start, end, visited, dist, prev, pq, m, e.key);
    } else {
      visited' := visited + {x};
      dist', prev', pq' := ExpandNew(adj, blocked, start, end, visited, dist, prev, pq, m);
    }
  }

  /** The state right after the reset: only `start` is known, at distance 0, and nothing is settled. */
  lemma {:induction false} SearchBegins(adj: Lists, blocked: set<Pos>, start: Pos, end: Pos)
    requires OnGrid(adj) && InBounds(start)
    ensures Searching(adj, blocked, start, end, {}, map[start := 0], map[], [Entry(0, start)])
  {
  }

  /** An empty frontier with `end` never extracted: `end` cannot be reached. */
  lemma {:induction false} Exhausted(adj: Lists, blocked: set<Pos>, start: Pos, end: Pos, visited: set<Pos>,
                                     dist: map<Pos, nat>, prev: map<Pos, Pos>)
    requires Searching(adj, blocked, start, end, visited, dist, prev, [])
    ensures Linked(dist, prev, start) && StepLinked(adj, blocked, prev)
    ensures !Reachable(adj, blocked, start, end)
  {
    EmptyFrontierUnreachable(adj, blocked, start, visited, dist, prev, end);
  }

  /**
   `dijkstra(grid, start, end)` on the graph of the neighbour lists `adj`,
   skipping `blocked` neighbours, starting from a cleared state in which
   only `start` has a distance. Reports whether `end` was extracted; the distances and
   predecessor links are the scratch state left behind.
   */
  method Solve(adj: Lists, blocked: set<Pos>, start: Pos, end: Pos)
    returns (found: bool, dist: map<Pos, nat>, prev: map<Pos, Pos>)
    requires OnGrid(adj) && InBounds(start)
    ensures Linked(dist, prev, start) && StepLinked(adj, blocked, prev)
    ensures found <==> Reachable(adj, blocked, start, end)
    ensures found ==> end in dist && Distance(adj, blocked, start, end, dist[end])
  {
    dist := map[start := 0];
    prev := map[];
    var pq := [Entry(0, start)];
    var visited: set<Pos> := {};
    SearchBegins(adj, blocked, start, end);
    while pq != []
      invariant Searching(adj, blocked, start, end, visited, dist, prev, pq)
      decreases AllCells() - visited, |pq|
    {
      var stop;
      stop, visited, dist, prev, pq := Extract(adj, blocked, start, end, visited, dist, prev, pq);
      if stop {
        found := true;
        return;
      }
    }
    Exhausted(adj, blocked, start, end, visited, dist, prev);
    found := false;
  }
}
