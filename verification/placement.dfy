/**
 Setting up a round: choosing the end cell and scattering 2x2 obstacle
 blocks. The random draws of the game become parameters: a finite sequence
 of drawn cells or block anchors, consumed from the front.
 */
module Placement {
  import opened Board

  /**
   A drawn end cell is kept when it differs from `start`; the newest version
   also rejects a cell next to `start` (`are_neighbors`).
   */
  predicate Acceptable(start: Pos, end: Pos, rejectAdjacent: bool) {
    end != start && !(rejectAdjacent && AreNeighbors(end, start))
  }

  /**
   The redraw loop for the end cell: the index of the first acceptable draw,
   or None when the draws run out before one is acceptable.
   */
  function ChooseEnd(start: Pos, draws: seq<Pos>, rejectAdjacent: bool): (r: Option<nat>)
    ensures r.Some? ==> r.value < |draws| && Acceptable(start, draws[r.value], rejectAdjacent)
    ensures r.Some? ==> forall i :: 0 <= i < r.value ==> !Acceptable(start, draws[i], rejectAdjacent)
    ensures r.None? <==> forall i :: 0 <= i < |draws| ==> !Acceptable(start, draws[i], rejectAdjacent)
  {
    if draws == [] then None
    else if Acceptable(start, draws[0], rejectAdjacent) then Some(0)
    else
      match ChooseEnd(start, draws[1..], rejectAdjacent)
      case None => None
      case Some(k) => Some(k + 1)
  }

  /** `random.randint(0, ROWS - 2)` and `random.randint(0, COLS - 2)`: room for a 2x2 block. */
  predicate AnchorOk(a: Pos) {
    0 <= a.row <= ROWS - 2 && 0 <= a.col <= COLS - 2
  }

  /** The four cells of the block anchored at `a`, in the order the source lists them. */
  function Block(a: Pos): (b: seq<Pos>)
    ensures |b| == 4
    ensures AnchorOk(a) ==> forall i :: 0 <= i < 4 ==> InBounds(b[i])
    ensures forall i, j :: 0 <= i < j < 4 ==> b[i] != b[j]
  {
    [a, Down(a), Right(a), Down(Right(a))]
  }

  /** A block is accepted when none of its cells is start, end or already a wall. */
  predicate Free(g: Grid, points: seq<Pos>, a: Pos)
    requires Valid(g) && AnchorOk(a)
  {
    forall i :: 0 <= i < 4 ==> Block(a)[i] !in points && !At(g, Block(a)[i]).wall
  }

  /** Sets the wall flag of one cell and keeps its mark. */
  function Raise(g: Grid, p: Pos): (g': Grid)
    requires Valid(g) && InBounds(p)
    ensures Valid(g')
    ensures Walls(g') == Walls(g) + {p}
    ensures Marks(g') == Marks(g)
    ensures forall q :: InBounds(q) ==> At(g', q).playerWall == At(g, q).playerWall
    ensures forall q :: InBounds(q) && q != p ==> At(g', q) == At(g, q)
  {
    var c := At(g, p);
    WallsAfterUpdate(g, p, c.(wall := true));
    MarksAfterUpdate(g, p, c.(wall := true));
    Update(g, p, c.(wall := true))
  }

  /** Walls every cell of the block anchored at `a`. */
  function WallBlock(g: Grid, a: Pos): (g': Grid)
    requires Valid(g) && AnchorOk(a)
    ensures Valid(g')
    ensures Walls(g') == Walls(g) + {Block(a)[0], Block(a)[1], Block(a)[2], Block(a)[3]}
    ensures Marks(g') == Marks(g)
    ensures forall q :: InBounds(q) && q !in Block(a) ==> At(g', q) == At(g, q)
  {
    var b := Block(a);
    Raise(Raise(Raise(Raise(g, b[0]), b[1]), b[2]), b[3])
  }

  /** A free block adds exactly four new walls, none of them start or end. */
  lemma {:induction false} FreeBlockAddsFour(g: Grid, points: seq<Pos>, a: Pos)
    requires Valid(g) && AnchorOk(a) && Free(g, points, a)
    ensures |Walls(WallBlock(g, a))| == |Walls(g)| + 4
    ensures forall i :: 0 <= i < 4 ==> Block(a)[i] !in Walls(g) && Block(a)[i] !in points
  {
    var b := Block(a);
    assert forall i :: 0 <= i < 4 ==> b[i] !in Walls(g);
    FourMore(Walls(g), b);
  }

  /** Four distinct cells outside a set grow it by four. */
  lemma {:induction false} FourMore(w: set<Pos>, b: seq<Pos>)
    requires |b| == 4 && forall i :: 0 <= i < 4 ==> b[i] !in w
    requires forall i, j :: 0 <= i < j < 4 ==> b[i] != b[j]
    ensures |w + {b[0], b[1], b[2], b[3]}| == |w| + 4
  {
    var w1 := w + {b[0]};
    var w2 := w1 + {b[1]};
    var w3 := w2 + {b[2]};
    assert |w1| == |w| + 1;
    assert |w2| == |w1| + 1;
    assert |w3| == |w2| + 1;
    assert |w3 + {b[3]}| == |w3| + 1;
    assert w + {b[0], b[1], b[2], b[3]} == w3 + {b[3]};
  }

  /** The cells of a sequence of blocks. */
  function Cover(anchors: seq<Pos>): set<Pos> {
    if anchors == [] then {}
    else
      var b := Block(anchors[0]);
      {b[0], b[1], b[2], b[3]} + Cover(anchors[1..])
  }

  /** The cells of `Cover(bs + [a])`: one block more. */
  lemma {:induction false} CoverSnoc(bs: seq<Pos>, a: Pos)
    ensures Cover(bs + [a]) == Cover(bs) + {Block(a)[0], Block(a)[1], Block(a)[2], Block(a)[3]}
    decreases |bs|
  {
    if bs != [] {
      assert (bs + [a])[1..] == bs[1..] + [a];
      CoverSnoc(bs[1..], a);
    } else {
      assert ([] + [a])[1..] == [];
    }
  }

  /** Walling one more free block keeps the bookkeeping of `Place`. */
  lemma {:induction false} AcceptKeeps(g: Grid, g0: Grid, points: seq<Pos>, blocks0: seq<Pos>, a: Pos)
    requires Valid(g) && Valid(g0) && AnchorOk(a) && Free(g0, points, a)
    requires Walls(g0) == Walls(g) + Cover(blocks0)
    requires |Walls(g0)| == |Walls(g)| + 4 * |blocks0|
    requires forall q :: q in Walls(g0) - Walls(g) ==> q !in points
    ensures Walls(WallBlock(g0, a)) == Walls(g) + Cover(blocks0 + [a])
    ensures |Walls(WallBlock(g0, a))| == |Walls(g)| + 4 * |blocks0 + [a]|
    ensures forall q :: q in Walls(WallBlock(g0, a)) - Walls(g) ==> q !in points
  {
    FreeBlockAddsFour(g0, points, a);
    CoverSnoc(blocks0, a);
    var b := Block(a);
    GrowBy(Walls(g), Walls(g0), Walls(WallBlock(g0, a)), Cover(blocks0), {b[0], b[1], b[2], b[3]}, points, |blocks0|);
  }

  /** The set algebra behind `AcceptKeeps`, kept apart from the grid. */
  lemma {:induction false} GrowBy(w: set<Pos>, w0: set<Pos>, w1: set<Pos>, c0: set<Pos>, b: set<Pos>, points: seq<Pos>, n: nat)
    requires w0 == w + c0 && |w0| == |w| + 4 * n
    requires w1 == w0 + b && |w1| == |w0| + 4
    requires forall q :: q in w0 - w ==> q !in points
    requires forall q :: q in b ==> q !in points
    ensures w1 == w + (c0 + b) && |w1| == |w| + 4 * (n + 1)
    ensures forall q :: q in w1 - w ==> q !in points
  {
  }

  /**
   What placing keeps between draws: `g'` is `g` with the cells of `blocks`
   walled, four new walls per block, no mark touched, and no new wall on
   start or end.
   */
  predicate Placed(g: Grid, points: seq<Pos>, g': Grid, blocks: seq<Pos>)
    requires Valid(g)
  {
    && Valid(g')
    && Walls(g') == Walls(g) + Cover(blocks)
    && |Walls(g')| == |Walls(g)| + 4 * |blocks|
    && Marks(g') == Marks(g)
    && (forall q :: q in Walls(g') - Walls(g) ==> q !in points)
  }

  /** One draw: the block anchored at `a` is walled and recorded when it is free, and ignored otherwise. */
  method Draw(g: Grid, points: seq<Pos>, g0: Grid, blocks0: seq<Pos>, a: Pos) returns (g1: Grid, blocks1: seq<Pos>)
    requires Valid(g) && AnchorOk(a) && Placed(g, points, g0, blocks0)
    ensures Placed(g, points, g1, blocks1)
    ensures blocks1 == blocks0 + [a] || blocks1 == blocks0
    ensures Free(g0, points, a) ==> blocks1 == blocks0 + [a] && g1 == WallBlock(g0, a)
    ensures !Free(g0, points, a) ==> blocks1 == blocks0 && g1 == g0
  {
    g1, blocks1 := g0, blocks0;
    if Free(g0, points, a) {
      AcceptKeeps(g, g0, points, blocks0, a);
      g1, blocks1 := WallBlock(g0, a), blocks0 + [a];
    }
  }

  /** Every accepted block comes from a draw used so far. */
  lemma {:induction false} DrawnFrom(anchors: seq<Pos>, used: nat, blocks0: seq<Pos>, blocks1: seq<Pos>)
    requires used < |anchors|
    requires forall i :: 0 <= i < |blocks0| ==> blocks0[i] in anchors[..used]
    requires blocks1 == blocks0 + [anchors[used]] || blocks1 == blocks0
    ensures forall i :: 0 <= i < |blocks1| ==> blocks1[i] in anchors[..used + 1]
  {
    assert anchors[..used + 1] == anchors[..used] + [anchors[used]];
  }

  /**
   `place_random_obstacles(grid, num, points)` over a finite supply of anchor
   draws: a drawn block is walled when it is free, and drawing stops once
   `num` blocks stand or the draws run out. Returns the new grid, the blocks
   accepted in order and the number of draws used.
   */
  method Place(g: Grid, num: nat, points: seq<Pos>, anchors: seq<Pos>)
    returns (g': Grid, blocks: seq<Pos>, used: nat)
    requires Valid(g)
    requires forall i :: 0 <= i < |anchors| ==> AnchorOk(anchors[i])
    ensures Valid(g')
    ensures |blocks| <= num && used <= |anchors|
    ensures |blocks| < num ==> used == |anchors|
    ensures forall i :: 0 <= i < |blocks| ==> blocks[i] in anchors[..used]
    ensures Walls(g') == Walls(g) + Cover(blocks)
    ensures |Walls(g')| == |Walls(g)| + 4 * |blocks|
    ensures Marks(g') == Marks(g)
    ensures forall q :: q in Walls(g') - Walls(g) ==> q !in points
  {
    g', blocks, used := g, [], 0;
    while |blocks| < num && used < |anchors|
      invariant Placed(g, points, g', blocks)
      invariant |blocks| <= num && used <= |anchors|
      invariant forall i :: 0 <= i < |blocks| ==> blocks[i] in anchors[..used]
      decreases |anchors| - used
    {
      var blocks0 := blocks;
      g', blocks := Draw(g, points, g', blocks, anchors[used]);
      DrawnFrom(anchors, used, blocks0, blocks);
      used := used + 1;
    }
  }
}
