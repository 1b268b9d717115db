/**
 The playing field shared by all three versions of the game: a fixed
 ROWS x COLS table of cells addressed by (row, col) coordinates. Each cell
 carries the two flags the game reads: `wall` (an obstacle, or in the older
 versions the player's own block) and `playerWall` (the player's route mark
 of the newest version). Solver scratch state (distance, predecessor) is not
 kept in the cells; it lives in maps owned by the solver.
 */
module Board {

  const ROWS: int := 20
  const COLS: int := 20

  datatype Option<T> = None | Some(value: T)

  datatype Pos = Pos(row: int, col: int)

  datatype Cell = Cell(wall: bool, playerWall: bool)

  /** Row-major table of cells, `g[row][col]`. */
  type Grid = seq<seq<Cell>>

  predicate InBounds(p: Pos) {
    0 <= p.row < ROWS && 0 <= p.col < COLS
  }

  /** Every coordinate of the grid. */
  function AllCells(): (s: set<Pos>)
    ensures forall p :: p in s <==> InBounds(p)
  {
    set r, c | 0 <= r < ROWS && 0 <= c < COLS :: Pos(r, c)
  }

  predicate Valid(g: Grid) {
    |g| == ROWS && forall r :: 0 <= r < ROWS ==> |g[r]| == COLS
  }

  function At(g: Grid, p: Pos): Cell
    requires Valid(g) && InBounds(p)
  {
    g[p.row][p.col]
  }

  /** Replaces one cell and leaves every other cell as it was. */
  function Update(g: Grid, p: Pos, c: Cell): (g': Grid)
    requires Valid(g) && InBounds(p)
    ensures Valid(g')
    ensures At(g', p) == c
    ensures forall q :: InBounds(q) && q != p ==> At(g', q) == At(g, q)
  {
    g[p.row := g[p.row][p.col := c]]
  }

  /** A freshly built grid: every node starts without wall or player mark. */
  function Fresh(): (g: Grid)
    ensures Valid(g)
    ensures forall p :: InBounds(p) ==> !At(g, p).wall && !At(g, p).playerWall
  {
    seq(ROWS, _ => seq(COLS, _ => Cell(false, false)))
  }

  /** The cells whose `wall` flag is set. */
  function Walls(g: Grid): set<Pos>
    requires Valid(g)
  {
    set p | p in AllCells() && At(g, p).wall
  }

  /** The cells the player has marked as part of the route. */
  function Marks(g: Grid): set<Pos>
    requires Valid(g)
  {
    set p | p in AllCells() && At(g, p).playerWall
  }

  function Abs(x: int): nat {
    if x < 0 then -x else x
  }

  /** Two coordinates one orthogonal step apart. */
  predicate AreNeighbors(a: Pos, b: Pos) {
    (a.row == b.row && Abs(a.col - b.col) == 1) || (a.col == b.col && Abs(a.row - b.row) == 1)
  }

  /** The number of orthogonal steps between two cells on an open grid. */
  function Manhattan(a: Pos, b: Pos): nat {
    Abs(a.row - b.row) + Abs(a.col - b.col)
  }

  /** One orthogonal step changes the Manhattan distance to `a` by at most one. */
  lemma StepManhattan(a: Pos, u: Pos, w: Pos)
    requires AreNeighbors(u, w)
    ensures Manhattan(a, w) <= Manhattan(a, u) + 1
  {
  }

  /** An orthogonal step that stays on the grid. */
  predicate Adjacent(a: Pos, b: Pos) {
    InBounds(a) && InBounds(b) && AreNeighbors(a, b)
  }

  function Down(p: Pos): Pos { Pos(p.row + 1, p.col) }
  function Up(p: Pos): Pos { Pos(p.row - 1, p.col) }
  function Right(p: Pos): Pos { Pos(p.row, p.col + 1) }
  function Left(p: Pos): Pos { Pos(p.row, p.col - 1) }

  /** The four cells one step away are exactly the neighbours. */
  lemma NeighborsAreTheFourSteps(a: Pos, b: Pos)
    ensures AreNeighbors(a, b) <==> b == Down(a) || b == Up(a) || b == Right(a) || b == Left(a)
  {
  }

  /** Setting or clearing one cell's mark moves exactly that cell in or out of Marks. */
  lemma MarksAfterUpdate(g: Grid, p: Pos, c: Cell)
    requires Valid(g) && InBounds(p)
    ensures c.playerWall ==> Marks(Update(g, p, c)) == Marks(g) + {p}
    ensures !c.playerWall ==> Marks(Update(g, p, c)) == Marks(g) - {p}
  {
  }

  /** The same for the wall flag. */
  lemma WallsAfterUpdate(g: Grid, p: Pos, c: Cell)
    requires Valid(g) && InBounds(p)
    ensures c.wall ==> Walls(Update(g, p, c)) == Walls(g) + {p}
    ensures !c.wall ==> Walls(Update(g, p, c)) == Walls(g) - {p}
  {
  }

  /** A cell is among the walls exactly when its wall flag is set. */
  lemma WallMember(g: Grid, p: Pos)
    requires Valid(g) && InBounds(p)
    ensures p in Walls(g) <==> At(g, p).wall
    ensures At(g, p).wall ==> Walls(g) + {p} == Walls(g)
    ensures !At(g, p).wall ==> Walls(g) - {p} == Walls(g)
  {
  }

  /** A fresh grid has neither walls nor marks. */
  lemma FreshIsBare()
    ensures Walls(Fresh()) == {} && Marks(Fresh()) == {}
  {
    assert forall p :: p !in Walls(Fresh()) && p !in Marks(Fresh());
  }
}
