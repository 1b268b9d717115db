# Grid pathfinding game — a Dafny model

The repository holds three versions of one game. Each is played on a 20 x 20
grid of cells. A unit-weight Dijkstra search finds a shortest route between a
green start cell and a red end cell, and the player tries to match it:

- `Shortest_Path_Game.py`, the first version. The user clicks to place the
  start, then the end, then walls. Space runs the search around the walls and
  paints the route.
- `src/Shortest_Path_Game.py`. Start and end are drawn at random. The player
  draws a route with walls (`wall`). Space counts the solver's predecessor
  links from `end` and shows that count less one as the path length (the
  cells strictly between start and end). The player wins when the number of
  blocks equals the shown length.
- `src/Shortest_Path_Game2.py`. Random 2 x 2 obstacles are placed. The player
  marks a route (`player_wall`). A breadth-first search checks that route
  before the solver runs, and the player wins with no more marks than the
  solver's length.

The model keeps the logic of all three and leaves the rendering out. Modules:

- `Board`: cells, the grid and `are_neighbors`.
- `Adjacency`: `Node.add_neighbors`, in its clearing form (newest version)
  and its appending form (older versions).
- `Paths`: paths, reachability and shortest distance over neighbour lists
  with a set of blocked cells.
- `Chains`: the predecessor links and `reconstruct_path`.
- `Dijkstra`: the search of the newest version. It resets every distance
  and link, tests a popped cell for `end` before it marks it visited, and
  expands a popped cell again.
- `OlderDijkstra`: the search of the two older versions, as functions over
  the solver state. They skip a visited cell, then mark it, then test for
  `end`. They set only `start`'s distance, so the distances and links a
  search leaves in the cells are the starting point of the next one.
- `RouteCheck`: `player_path_valid`.
- `Placement`: the choice of the end cell and `place_random_obstacles`.
- `GameTwo`, `GameOne` and `Prototype`: the event handlers of each version,
  with one function or method per event.

Which graph each solver searches:

- The newest version rebuilds its lists once, on a grid without walls, and
  skips obstacle walls. That is grid adjacency around the walls.
- `src/Shortest_Path_Game.py` only appends to its lists, and it never tests
  `wall`. Its lists hold every orthogonal cell from the first call on, so its
  solver ignores the player's blocks. Its length is the Manhattan distance.
- The first version appends too, but it skips walls. Its lists are complete,
  so it searches the same graph as the newest version. It keeps the cells'
  distances and links from one Space to the next, and that changes the
  answer (see "## Findings").

Main results:

- `Dijkstra.Solve` finds `end` exactly when `end` is reachable. Its distance
  is then the least number of steps, and every predecessor link is a step
  that lowers the distance by one. `OlderDijkstra.SearchFresh` proves the
  same of the older search on cells that hold no distance or link yet.
- Whatever the cells hold, a success of the older search is sound
  (`OlderDijkstra.Search`). A failure is not: in the first version a second
  Space can miss a route or trace links in a circle for ever.
- `Chains.Walk` counts exactly that many links.
- `RouteCheck.PlayerPathValid` returns true exactly when the marked cells
  connect start to end.
- In the newest version, a valid route always lets the solver succeed.
  `GameTwo.RouteNeedsMarks` shows that the route uses at least as many marks
  as the solver's length, so a win under the `<=` rule is always a tie.

## Model

| member | source | states |
|---|---|---|
| Board.NeighborsAreTheFourSteps | src/Shortest_Path_Game2.py:158-159 | two cells are neighbours exactly when one is down, up, right or left of the other |
| Adjacency.Neighbors | src/Shortest_Path_Game2.py:54-63 | a cell is on a node's list exactly when it is an in-bounds orthogonal neighbour that is not a wall |
| Adjacency.NeighborsOrdered | src/Shortest_Path_Game2.py:56-63 | the list follows the order down, up, right, left, with each direction at most once, so no cell appears twice |
| Adjacency.RebuildLists | src/Shortest_Path_Game2.py:179-181 | after every node runs the clearing `add_neighbors`, each list is exactly the current neighbour list, in the source's direction order, whatever it held before |
| Adjacency.AppendLists | src/Shortest_Path_Game.py:237-239 | after every node runs the appending `add_neighbors`, the old list is a prefix of the new one, and the new entries are exactly the current neighbours |
| Adjacency.FreshListsComplete | src/Shortest_Path_Game.py:146-150 | the lists built when the grid is created name every orthogonal in-bounds cell of their node |
| Adjacency.AppendKeepsComplete | src/Shortest_Path_Game.py:56-64 | appending never loses an entry and adds only orthogonal cells, so complete lists stay complete whatever walls are set later |
| Chains.Route | src/Shortest_Path_Game2.py:101-105 | following `previous` from a reached cell ends at `start` after exactly its distance in links, and each link lowers the distance by one |
| Chains.RouteDistinct | src/Shortest_Path_Game2.py:104-105 | the chain of predecessors never meets a cell twice |
| Chains.RouteIsPath | src/Shortest_Path_Game2.py:93-96 | when every link was set along a step of the searched graph, the chain is a path of that graph from `start` to the cell |
| Chains.LinkedAtLeastManhattan | Shortest_Path_Game.py:75-78 | on complete lists every cell with a distance is at least its Manhattan distance from `start` |
| Chains.LinkNearer | Shortest_Path_Game.py:75-78 | on complete lists a cell at its Manhattan distance from `start` is linked to a grid neighbour one step nearer to `start` |
| Chains.Walk | src/Shortest_Path_Game2.py:101-109 | `reconstruct_path(end)` returns the number of predecessor links, which equals the distance of `end` |
| Chains.WalkKeeps | src/Shortest_Path_Game2.py:107-108 | the walk never repaints a cell with a protected colour (start green, end red), and no coloured cell loses its colour |
| Chains.WalkPaints | src/Shortest_Path_Game2.py:104-108 | the walk paints exactly the unprotected cells on the chain strictly before `end`: every cell whose colour changes is one of them and now has the path colour, and every one of them ends with the path colour |
| Chains.WalkSparesEnd | Shortest_Path_Game.py:83-88 | the walk steps back before it paints, so `end` keeps its colour even when that colour is not protected |
| Dijkstra.MinIndex | src/Shortest_Path_Game2.py:80 | extract-min picks an entry with the least distance, the first of equal ones |
| Dijkstra.PopIsFinal | src/Shortest_Path_Game2.py:79-85 | when the least entry's cell was not expanded yet, its key is the cell's distance and no route to the cell is shorter |
| Dijkstra.EmptyFrontierUnreachable | src/Shortest_Path_Game2.py:79-98 | when the queue is empty, no unexpanded cell, and so not `end`, can be reached from `start` |
| Dijkstra.Relax | src/Shortest_Path_Game2.py:87-96 | a visited or wall neighbour is left alone; a strict improvement sets its distance to exactly one more than the base, links it to the current cell and pushes exactly that one entry; anything else changes nothing |
| Dijkstra.Expand | src/Shortest_Path_Game2.py:87-96 | after the neighbour loop every step out of the node is within one more than the base, expanded cells keep their distances, no distance grows, every cell whose distance changed is a step target now at the base plus one and linked to the node, and nothing changes when the node offers no improvement |
| Dijkstra.ExpandNew | src/Shortest_Path_Game2.py:85-96 | expanding a newly popped cell at its final distance keeps the search invariant |
| Dijkstra.ExpandAgain | src/Shortest_Path_Game2.py:79-96 | popping an already expanded cell again (newest version) keeps the invariant, changes no distance or link, and only removes the popped entry |
| Dijkstra.Extract | src/Shortest_Path_Game2.py:79-96 | one pass of the loop: it stops with `end` final when `end` is popped, and otherwise keeps the invariant and either expands a new cell or shortens the queue |
| Dijkstra.Solve | src/Shortest_Path_Game2.py:69-98 | `dijkstra` returns true exactly when `end` is reachable; then `end`'s distance is the least number of steps, and every predecessor link is a step one distance lower |
| OlderDijkstra.Search | Shortest_Path_Game.py:55-81 | `dijkstra` of the older versions, started on whatever distances and links the cells hold, reports success only when `end` is reachable |
| OlderDijkstra.PassSound | Shortest_Path_Game.py:60-79 | one pass pushes only cells reachable from `start`, and pops `end` only when it is reachable |
| OlderDijkstra.RunSound | Shortest_Path_Game.py:60-81 | from any state whose queue holds reachable cells, the loop reports success only when `end` is reachable |
| OlderDijkstra.RelaxAllCovers | src/Shortest_Path_Game.py:86-94 | the neighbour loop keeps the distances of visited cells, grows no distance, and leaves every listed neighbour neither visited nor blocked within one more than the base |
| OlderDijkstra.RelaxAllChanges | src/Shortest_Path_Game.py:86-94 | a cell whose distance the neighbour loop lowered is at the base plus one and linked to the node; a cell already within the base plus one keeps its distance and link |
| OlderDijkstra.RelaxAllIdle | Shortest_Path_Game.py:71-79 | when every listed neighbour is visited, a wall or already within the base plus one, the neighbour loop changes nothing |
| OlderDijkstra.PassCorrect | src/Shortest_Path_Game.py:75-94 | from a state meeting the search invariant, one pass either pops `end` at its shortest distance or keeps the invariant |
| OlderDijkstra.RunCorrect | src/Shortest_Path_Game.py:75-96 | from a state meeting the search invariant, the loop succeeds exactly when `end` is reachable, with its shortest distance and step links |
| OlderDijkstra.SearchFresh | src/Shortest_Path_Game.py:70-96 | on cells holding no distance or link, as on a new grid, the search succeeds exactly when `end` is reachable, with its shortest distance, and every link is a step one distance lower |
| OlderDijkstra.RunKeepsNear | Shortest_Path_Game.py:75-79 | the loop never changes the distance or link of a cell at distance 1 or less, since each write is at least 1 |
| OlderDijkstra.SearchFirstPass | Shortest_Path_Game.py:56-79 | the first pass expands `start`: every step out of it ends within distance 1, a step target that was farther is linked to `start`, and `start` keeps the link it held |
| OlderDijkstra.SearchIdle | Shortest_Path_Game.py:56-81 | when every step out of `start` already lies within distance 1, the search fails at once and leaves every link as it was |
| OlderDijkstra.BackStaysIn | Shortest_Path_Game.py:83-86 | when every cell of a set has a link inside the set, the `while current.previous` walk from a cell of the set stays in it and finds a link at every round |
| OlderDijkstra.BackReachesStart | Shortest_Path_Game.py:83-86 | when every link falls by one in distance towards `start`, the walk from a reached cell stands on `start` after as many rounds as the cell's distance |
| OlderDijkstra.LinkedWalkEnds | Shortest_Path_Game.py:83-86 | under such links the `while current.previous` walk from a reached cell ends, since `start` has no link |
| Paths.RouteBound | src/Shortest_Path_Game2.py:262-267 | when every step of a graph lands on the target or on a marked cell, and is also a step of a second graph, then the second graph reaches the target and needs at least n - 1 marks for any shortest length n |
| Paths.RouteAtLeastManhattan | src/Shortest_Path_Game.py:56-64 | a route over lists of orthogonal neighbours takes at least the Manhattan distance in steps |
| RouteCheck.RouteSteps | src/Shortest_Path_Game2.py:285-293 | the cells tried from the current cell are exactly its in-bounds orthogonal neighbours that are marked or are `end` |
| RouteCheck.EnqueueNew | src/Shortest_Path_Game2.py:295-298 | every neighbour ends up visited, only new ones are queued, and queued cells are reachable |
| RouteCheck.Dequeue | src/Shortest_Path_Game2.py:279-298 | one pass of the search: stopping means `end` is reachable; otherwise the search invariant holds and the search makes progress |
| RouteCheck.Exhausted | src/Shortest_Path_Game2.py:279-300 | when the queue is empty, `end` cannot be reached |
| RouteCheck.PlayerPathValid | src/Shortest_Path_Game2.py:275-300 | `player_path_valid` is true exactly when orthogonal steps onto marked cells or `end` lead from `start` to `end` |
| Placement.ChooseEnd | src/Shortest_Path_Game2.py:184-188 | the kept end draw is the first that is not the start (and, in the newest version, not next to it); it is None when every draw is rejected |
| Placement.Block | src/Shortest_Path_Game2.py:165-167 | an anchor in the allowed range gives four distinct in-bounds cells |
| Placement.WallBlock | src/Shortest_Path_Game2.py:169-171 | walling a block adds exactly its four cells to the walls and touches no other cell and no mark |
| Placement.FreeBlockAddsFour | src/Shortest_Path_Game2.py:167-172 | an accepted block adds four new walls, none of them start or end |
| Placement.Draw | src/Shortest_Path_Game2.py:165-172 | a drawn block is walled and counted exactly when none of its cells is start, end or a wall |
| Placement.Place | src/Shortest_Path_Game2.py:162-172 | the walls grow by the accepted blocks, four distinct cells each, never on start or end; fewer than `num` blocks only when the draws ran out |
| GameTwo.Setup | src/Shortest_Path_Game2.py:177-197 | a new round has distinct, non-adjacent end points free of walls, no marks, a zero counter and no verdict; its obstacles are the accepted blocks, each taken from the draws used, and fewer than `num` stand only when the draws ran out |
| GameTwo.Mark | src/Shortest_Path_Game2.py:239-248 | left-click marks exactly the unmarked cells that are neither start, end nor a wall, the counter keeps counting the marks, and the length and verdict flags stay as they were |
| GameTwo.Unmark | src/Shortest_Path_Game2.py:249-258 | right-click removes the mark of a marked cell other than start and end, the counter keeps counting the marks, and the length and verdict flags stay as they were |
| GameTwo.Evaluate | src/Shortest_Path_Game2.py:259-270 | Space rejects a route that does not connect start and end; otherwise the solver succeeds, the length is its distance less one, and the player wins exactly when the marks equal that length |
| GameTwo.Score | src/Shortest_Path_Game2.py:263-267 | the solver half of Space: it fails exactly when `end` is unreachable around the obstacles, and otherwise records the length and the `<=` verdict |
| GameTwo.Shortest | src/Shortest_Path_Game2.py:263-264 | the newest search plus `reconstruct_path` succeeds exactly when `end` is reachable around the obstacles, and returns the distance |
| GameTwo.ScoreBounds | src/Shortest_Path_Game2.py:262-264 | after a valid route check the solver's distance is at least two, and at most one more than the counter |
| GameTwo.RouteNeedsMarks | src/Shortest_Path_Game2.py:262-267 | a valid route is a solver path, and it passes through at least n - 1 marked cells when the shortest distance is n |
| GameOne.Setup | src/Shortest_Path_Game.py:146-157 | a new round has complete lists, no walls, a zero counter, and the first end draw that differs from the start |
| GameOne.Click | src/Shortest_Path_Game.py:219-226 | left-click walls a cell other than start and end, the counter keeps counting the walls, and the length and verdict flags stay as they were |
| GameOne.Unclick | src/Shortest_Path_Game.py:227-234 | right-click clears a wall other than start and end, the counter keeps counting the walls, and the length and verdict flags stay as they were |
| GameOne.OpenDistance | src/Shortest_Path_Game.py:86-94 | with complete lists and no wall skipped, the shortest distance between two cells is their Manhattan distance |
| GameOne.OpenShortest | src/Shortest_Path_Game.py:240-248 | the older search never fails here, and the counted links are the Manhattan distance |
| GameOne.Evaluate | src/Shortest_Path_Game.py:235-252 | Space always ends the round: the length grows by the Manhattan distance, and the player wins exactly when the blocks are one fewer |
| Prototype.Blank | Shortest_Path_Game.py:150-156 | a reset gives a wall-free grid with complete lists and no start or end |
| Prototype.LeftClick | Shortest_Path_Game.py:120-132 | the click sets the start, else the end, else a wall on a cell that is neither; start and end never coincide |
| Prototype.RightClick | Shortest_Path_Game.py:133-142 | the click clears the wall flag and takes away the start or end role of that cell; nothing else changes |
| Prototype.CompleteListsAgree | Shortest_Path_Game.py:145-147 | two complete sets of lists allow the same steps, so appending lists again changes no route |
| Prototype.Space | Shortest_Path_Game.py:143-149 | Space does nothing without both end points; otherwise it appends the lists and runs the older search over the distances and links the screen holds. A success always means `end` is reachable around the walls; on a screen holding no distances or links, success is exactly reachability, with the shortest distance, and every link chain falls by one per link to `start` |
| Prototype.GridRoutes | Shortest_Path_Game.py:145-148 | complete lists with the walls skipped have exactly the routes, and the same shortest distances, as grid adjacency around the walls |
| Prototype.ResetSpace | src/Shortest_Path_Game2.py:69-75 | Space with every distance and link cleared first: it succeeds exactly when `end` is reachable around the walls, with the shortest distance, and every link chain falls by one per link to `start`, whatever was searched before |
| Prototype.ResetWalkEnds | Shortest_Path_Game.py:83-86 | after a reset Space that finds `end`, the `while current.previous` walk from `end` ends |
| Prototype.RepeatedSpaceMissesRoute | Shortest_Path_Game.py:143-149 | start (0,0), end (0,2), Space, a wall at (0,1), Space: a route round the wall exists, yet the second Space fails and leaves `end` linked to the wall cell; the reset Space finds the route |
| Prototype.RepeatedSpaceNeverEnds | Shortest_Path_Game.py:83-86 | start (0,0), end (0,3), Space, both cleared, start (0,3), end (0,4), Space: every cell the `while current.previous` walk from `end` reaches has a link, so the walk never ends |

## Left out

- Rendering, fonts, colours other than the tags `reconstruct_path` reads and writes, the menu and the countdown windows (`draw`, `draw_grid`, `display_message`, `game_end`, `main`): these are UI only.
- The mapping from mouse pixels to cells, and the `pos[1] < GRID_HEIGHT` guard: clicks are given as cell coordinates. `GameTwo.Mark` and `GameTwo.Unmark` accept any coordinate and ignore one off the grid.
- The event loop, `sys.exit`, and the recursive restart through `game_end`/`display_message` into `start_the_game`: each event is a separate transition.
- `random.choice` and `random.randint`: the draws are finite sequences given as parameters. The unbounded redraw loops end with None, or with fewer blocks, when the sequence runs out.
- `heapq` internals: the frontier is a sequence, and extract-min takes the first least entry. Tie order may differ from the heap's, so among equally short routes a different predecessor chain may be traced. Lengths and reachability do not depend on it. `OlderDijkstra` pops the same way. The counterexamples in "## Findings" rest on distances and links that the Manhattan bound forces whatever the tie order.
- `float('inf')`: an unreached cell has no entry in the distance map.
- `src/Shortest_Path_Game.py` solves once per round on a new grid, because the round restarts right after Space; `GameOne.OpenShortest` therefore runs the older search on cells that hold nothing.
- Prototype.Space: promises reachability and the shortest distance only on a screen holding no distances or links (the first Space after start-up or `R`). On a repeated Space it promises only that a success is sound, because the source's answer then depends on the stale state (see "## Findings").
- Prototype.Space: does not run the `reconstruct_path(end)` call that follows the search, which the source makes whether or not the search succeeded. The links it follows are the `prev` map the screen keeps; `OlderDijkstra.Back` and `OlderDijkstra.Endless` describe that walk, and the colours it paints are not modelled for this version.
- The newest version keeps handling clicks and Space after a decided round until `R` is pressed. The model follows the code and keeps those events available.
- Placement.Place: states which blocks stand, and that a shortfall means the draws ran out. It does not list which draws were rejected; `Placement.Draw` states the per-draw rule.
- Chains.Walk: its contract states only the link count. The colours it leaves behind are stated by `Chains.WalkKeeps`, `Chains.WalkPaints` and `Chains.WalkSparesEnd`.

## Findings

| source | as written | input that shows it | evidently intended | confidence | as-written member | corrected member |
|---|---|---|---|---|---|---|
| Shortest_Path_Game.py:55-58 | `dijkstra` sets only `start.distance`; every other distance and link survives from the previous Space, so a repeated Space can give up although a route exists, and `reconstruct_path` then paints along a stale link | start (0,0), end (0,2), Space; wall at (0,1); Space: (1,0) keeps distance 1, nothing is pushed, the search fails, and `end` stays linked to the wall (0,1) | clear every distance and link before searching, as src/Shortest_Path_Game2.py:70-73 does | high, not executed | Prototype.RepeatedSpaceMissesRoute | Prototype.ResetSpace |
| Shortest_Path_Game.py:83-86 | stale links survive into the next search, which can link a cell back to the cell that was its successor, and `while current.previous` then walks a cycle for ever | start (0,0), end (0,3), Space; right-click (0,0) and (0,3); left-click (0,3), then (0,4); Space: links (0,4) to (0,3), (0,3) to (0,2), (0,2) to (0,3) | the same reset, after which every link chain ends at `start` and the walk from a found `end` stops there | high, not executed | Prototype.RepeatedSpaceNeverEnds | Prototype.ResetWalkEnds |
