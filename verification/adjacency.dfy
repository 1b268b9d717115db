/**
 Neighbour lists (`Node.add_neighbors`). A node's list holds the in-bounds
 orthogonal cells whose `wall` flag is clear, tried in the fixed order down,
 up, right, left. The newest version clears the list before filling it; the
 two older versions only append, so their lists grow with every call.
 */
module Adjacency {
  import opened Board

  /** Position of `q` in the order the source tries the directions; 4 when `q` is no step of `p`. */
  function Rank(p: Pos, q: Pos): nat {
    if q == Down(p) then 0
    else if q == Up(p) then 1
    else if q == Right(p) then 2
    else if q == Left(p) then 3
    else 4
  }

  /** The four steps from `p`, in the order the source tries them. */
  function Candidates(p: Pos): seq<Pos> {
    [Down(p), Up(p), Right(p), Left(p)]
  }

  /** The candidates that lie on the grid and are not walls, in their original order. */
  function Keep(g: Grid, cs: seq<Pos>): (r: seq<Pos>)
    requires Valid(g)
    ensures forall q :: q in r <==> q in cs && InBounds(q) && !At(g, q).wall
    ensures |r| <= |cs|
  {
    if cs == [] then []
    else (if InBounds(cs[0]) && !At(g, cs[0]).wall then [cs[0]] else []) + Keep(g, cs[1..])
  }

  /** The cells `add_neighbors` appends for node `p` on grid `g`. */
  function Neighbors(g: Grid, p: Pos): (r: seq<Pos>)
    requires Valid(g) && InBounds(p)
    ensures forall q :: q in r <==> Adjacent(p, q) && !At(g, q).wall
  {
    assert forall q :: Adjacent(p, q) <==> q in Candidates(p) && InBounds(q);
    Keep(g, Candidates(p))
  }

  /** Filtering keeps a strictly increasing rank strictly increasing. */
  lemma {:induction false} KeepOrdered(g: Grid, p: Pos, cs: seq<Pos>)
    requires Valid(g)
    requires forall i, j :: 0 <= i < j < |cs| ==> Rank(p, cs[i]) < Rank(p, cs[j])
    ensures forall i, j :: 0 <= i < j < |Keep(g, cs)| ==> Rank(p, Keep(g, cs)[i]) < Rank(p, Keep(g, cs)[j])
  {
    if cs != [] {
      KeepOrdered(g, p, cs[1..]);
      var rest := Keep(g, cs[1..]);
      forall q | q in rest
        ensures Rank(p, cs[0]) < Rank(p, q)
      {
        var k :| 1 <= k < |cs| && cs[k] == q;
      }
    }
  }

  /**
   The list follows the source's direction order down, up, right, left, each
   direction at most once; hence it never names the same cell twice.
   */
  lemma {:induction false} NeighborsOrdered(g: Grid, p: Pos)
    requires Valid(g) && InBounds(p)
    ensures forall i, j :: 0 <= i < j < |Neighbors(g, p)| ==> Rank(p, Neighbors(g, p)[i]) < Rank(p, Neighbors(g, p)[j])
    ensures forall i, j :: 0 <= i < j < |Neighbors(g, p)| ==> Neighbors(g, p)[i] != Neighbors(g, p)[j]
  {
    var cs := Candidates(p);
    assert Rank(p, cs[0]) == 0 && Rank(p, cs[1]) == 1 && Rank(p, cs[2]) == 2 && Rank(p, cs[3]) == 3;
    KeepOrdered(g, p, cs);
  }

  /** One list per node, keyed by coordinate. */
  type Lists = map<Pos, seq<Pos>>

  /**
   Every node's list after a clearing `add_neighbors` call on every node:
   exactly the current neighbours, whatever the lists held before.
   */
  function RebuildLists(g: Grid): (m: Lists)
    requires Valid(g)
    ensures forall p :: p in m <==> InBounds(p)
    ensures forall p :: p in m ==> m[p] == Neighbors(g, p)
    ensures forall p, q :: p in m ==> (q in m[p] <==> Adjacent(p, q) && !At(g, q).wall)
  {
    map p | p in AllCells() :: Neighbors(g, p)
  }

  /**
   Every node's list after an appending `add_neighbors` call on every node:
   the old list, unchanged, followed by the current neighbours.
   */
  function AppendLists(m: Lists, g: Grid): (m': Lists)
    requires Valid(g)
    ensures forall p :: p in m' <==> InBounds(p)
    ensures forall p :: p in m && InBounds(p) ==> m[p] <= m'[p] && m'[p][|m[p]|..] == Neighbors(g, p)
    ensures forall p :: p !in m && InBounds(p) ==> m'[p] == Neighbors(g, p)
    ensures forall p, q :: p in m' ==> (q in m'[p] <==> (p in m && q in m[p]) || (Adjacent(p, q) && !At(g, q).wall))
  {
    map p | p in AllCells() :: (if p in m then m[p] else []) + Neighbors(g, p)
  }

  /** Every node has a list, and each list names exactly the node's in-bounds orthogonal cells. */
  ghost predicate Complete(m: Lists) {
    && (forall p :: InBounds(p) ==> p in m)
    && (forall p, q :: p in m && q in m[p] ==> Adjacent(p, q))
    && (forall p, q :: p in m && Adjacent(p, q) ==> q in m[p])
  }

  /** Every list only names cells of the grid, so a search over them stays on the grid. */
  predicate OnGrid(m: Lists) {
    forall p, q :: p in m && q in m[p] ==> InBounds(q)
  }

  /** The lists built when the grid is created have no wall to skip, so they are complete. */
  lemma {:induction false} FreshListsComplete()
    ensures Complete(RebuildLists(Fresh()))
    ensures Complete(AppendLists(map[], Fresh()))
  {
    var g := Fresh();
    forall p, q | p in RebuildLists(g) && Adjacent(p, q)
      ensures q in RebuildLists(g)[p]
    {
      assert !At(g, q).wall;
    }
    forall p, q | p in AppendLists(map[], g) && Adjacent(p, q)
      ensures q in AppendLists(map[], g)[p]
    {
      assert !At(g, q).wall;
    }
  }

  /**
   Appending never loses an entry and only adds orthogonal in-bounds cells, so
   once every list is complete it stays complete, whatever walls are set later.
   */
  lemma {:induction false} AppendKeepsComplete(m: Lists, g: Grid)
    requires Valid(g) && Complete(m)
    ensures Complete(AppendLists(m, g))
  {
  }

  lemma {:induction false} CompleteIsOnGrid(m: Lists)
    requires Complete(m)
    ensures OnGrid(m)
  {
  }

  /** The lists of a grid without walls: plain grid adjacency. */
  function GridLists(): (m: Lists)
    ensures Complete(m) && OnGrid(m)
    ensures forall p :: p in m <==> InBounds(p)
  {
    FreshListsComplete();
    CompleteIsOnGrid(RebuildLists(Fresh()));
    RebuildLists(Fresh())
  }
}
