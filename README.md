# Pipes puzzle engine in Dafny

This project models the engine of a browser pipes puzzle, `snap/pipes.js`.
The engine keeps a square grid of pipes. Each pipe has four connector slots,
Up, Right, Down and Left, and each slot is open or closed.

- `initPipes` fills the grid with closed pipes.
- `buildPipes` grows a random spanning tree from the centre pipe, opening
  one pair of facing connectors for every pipe it adds.
- `scramblePipes` turns every pipe a random number of times.
- `checkPipes` runs a depth-first flood from the centre along matched
  connector pairs. It marks the pipes it reaches as active, and the player
  wins when all `size * size` pipes are active.
- A click (`rotatePipe`) turns one pipe and runs the check again.
- `save` and `load` write the pipe list out and rebuild the grid from it.

The modules follow the engine's structure:

- `Directions` (directions.dfy) holds the direction numbering, the
  `reverse_direction` table and the two offset tables. `Pipe.getNeighbour`
  moves Right/Left along x and Up/Down along y. `checkPipes` moves Up/Down
  along x and Right/Left along y. Both tables are kept, side by side, as the
  two cases of `Convention`.
- `Pipes` (pipes.dfy) holds a pipe's slots as a value (`Slots`), the
  rotation `[c0, c1, c2, c3] -> [c3, c0, c1, c2]` and its laws. It also
  holds the `Pipe` class, whose `active` flag and `connections` are updated
  in place.
- `Boards` (boards.dfy) is the grid as a value: a map from cell (x, y) to
  slots. It defines links between neighbours, walks, reachability, and the
  row-by-row order in which `getPipes` lists the cells.
- `Generation` (generation.dfy) holds `buildPipes` and `scramblePipes` as
  functions on boards, driven by random numbers passed in. The lemmas there
  show:
  - the grown tree keeps its invariant;
  - a complete tree reaches every cell;
  - scrambling keeps each pipe's connector count.
- `Flood` (flood.dfy) holds the loop of `checkPipes` on cells: the lit set,
  the stack and `connected_pipes`. Its invariant shows that once the stack
  is empty, the lit cells are exactly the cells reachable from the centre.
- `Saves` (saves.dfy) holds the saved records and the rebuild of `load`.
  Loading what `save` wrote gives back the board.
- `Grids` (grid.dfy) holds the `grid` object as a class whose methods
  update the pipes in place. Each method is proved against the value-level
  functions above, through the snapshots `Board()` (every cell's slots) and
  `Flags()` (every cell's `active`).

The two offset tables do not agree. `FirstPairIsNotFollowedByFlood` shows,
on a 3 x 3 grid, a pair opened by the generator that the flood does not
follow. Turning every pipe of a generated tree once makes it solved under
the flood's offsets (`FullTreeSolvedAfterOneTurn`). So a complete
generated and scrambled puzzle is solved by clicking each pipe
`(5 - k) % 4` times, where k is the number of turns it was scrambled by
(`GeneratedPuzzleIsSolvable`, used by `Init`).

An out-of-range click is not a no-op in the code. `getPipe` returns
`undefined` and the call to `rotate` throws. The model follows the code and
requires in-range coordinates.

## Model

| member | source | states |
|---|---|---|
| `Directions.Reverse` | snap/pipes.js:67-72 | the reverse of a direction is the opposite slot, (d + 2) % 4, never d itself |
| `Directions.ReverseIsInvolution` | snap/pipes.js:67-72 | reversing twice gives the direction back; Up and Down, Right and Left are each other's reverse |
| `Directions.NeighbourOffset` | snap/pipes.js:24-37 | `getNeighbour` moves one step along one axis: Right and Left along x, Up and Down along y, forwards for Right and Up |
| `Directions.FloodOffset` | snap/pipes.js:222-264 | `checkPipes` moves one step along one axis: Up (x - 1) and Down (x + 1) along x, Right and Left along y, forwards for Down and Right |
| `Directions.OffsetIsUnitStep` | snap/pipes.js:23-40 | under either table every direction moves exactly one step along one axis |
| `Directions.OffsetOfReverse` | snap/pipes.js:23-40 | under either table the reverse direction steps straight back |
| `Directions.ConventionsDifferByOneTurn` | snap/pipes.js:222-264 | direction d of `getNeighbour` has the offset of direction d + 1 of `checkPipes`, and never its own |
| `Pipes.Slots.Slot` | snap/pipes.js:7-8 | slot d is element d of the four-element `connections` array, in the order Up, Right, Down, Left |
| `Pipes.Slots.AnyOpen` | snap/pipes.js:163 | some connector is open exactly when the array holds a 1, the `indexOf(1) != -1` test |
| `Pipes.Slots.Opened` | snap/pipes.js:164-165 | `connections[d] = 1` opens slot d and leaves the other three slots as they were |
| `Pipes.AnyOpenIsSomeSlot` | snap/pipes.js:163 | `connections.indexOf(1) != -1` holds exactly when some direction's slot is 1 |
| `Pipes.OpenCountZero` | snap/pipes.js:163 | a pipe has no open connector exactly when `indexOf(1)` finds nothing |
| `Pipes.Rotated` | snap/pipes.js:46-48 | the two `splice` calls cut out the last element and put it in front: the array becomes its element 3 followed by elements 0, 1, 2 |
| `Pipes.RotatedMovesSlot` | snap/pipes.js:46-48 | one rotation moves every slot's value one step round Up, Right, Down, Left (an open Up becomes an open Right) |
| `Pipes.TurnedMovesSlots` | snap/pipes.js:181-183 | k rotations move the value of slot d to slot (d + k) % 4 |
| `Pipes.TurnedKeepsOpenCount` | snap/pipes.js:181-183 | any number of rotations keeps the number of open connectors |
| `Pipes.FourTurnsAreIdentity` | snap/pipes.js:46-48 | four rotations give the pipe back unchanged |
| `Pipes.TurnsAdd` | snap/pipes.js:181-183 | a rotations followed by b rotations are a + b rotations |
| `Pipes.TurnsModFour` | snap/pipes.js:179-183 | only the number of rotations modulo four matters |
| `Pipes.Pipe.constructor` | snap/pipes.js:1-8 | a new pipe at (x, y) is inactive and has every slot closed |
| `Pipes.Pipe.Restored` | snap/pipes.js:305-310 | a pipe rebuilt by `load` carries the record's coordinates, slots and flag |
| `Pipes.Pipe.IsActive` | snap/pipes.js:10-12 | `isActive` is true exactly when the flag is 1; any other stored value reads as inactive |
| `Pipes.Pipe.SetActive` | snap/pipes.js:14-16 | the flag becomes 1 for true and 0 for false, so `isActive` reads back what was set |
| `Pipes.Pipe.HasConnection` | snap/pipes.js:42-44 | `hasConnection(d)` is true exactly when element d of the `connections` array is 1 |
| `Pipes.Pipe.Rotate` | snap/pipes.js:46-48 | the slots become the rotated slots; an open d becomes an open d + 1; the open count stays |
| `Pipes.Pipe.RotateTimes` | snap/pipes.js:181-183 | calling `rotate` k times leaves the slots turned k times |
| `Boards.Centre` | snap/pipes.js:145-146 | `Math.ceil(size / 2)` lies in 1..size and is the middle index (n <= 2m <= n + 1) |
| `Boards.ClosedBoard` | snap/pipes.js:121-134 | after `initPipes` every cell of the grid, and no other, holds a closed pipe; its use is the start of the tree invariant, `TreeInvAtStart` |
| `Boards.Linked` | snap/pipes.js:222-231 | a link from c in direction d joins c to a different cell, and both facing connectors, d on c and the reverse of d on the neighbour, are open |
| `Boards.LinkedIsSymmetric` | snap/pipes.js:222-264 | a link from c in direction d is matched by a link back from the neighbour in the reverse direction |
| `Boards.TurnAll` | snap/pipes.js:46-48 | the board with every pipe rotated once has the same cells, each holding its rotated slots; what it means for links is `NeighbourLinkIsFloodLinkAfterTurn` |
| `Boards.NeighbourLinkIsFloodLinkAfterTurn` | snap/pipes.js:23-40 | a generator link in direction d is exactly a flood link in direction d + 1 once every pipe is turned once |
| `Boards.ReachableAfterTurn` | snap/pipes.js:23-40 | what the generator's links reach, the flood's links reach after every pipe is turned once |
| `Boards.GridOrder` | snap/pipes.js:105-114 | every cell the listing of m rows of n cells visits lies in rows 1..m and columns 1..n |
| `Boards.GridOrderIsRowMajor` | snap/pipes.js:105-114 | the listing visits the cells row by row and, within a row, by ascending column |
| `Boards.GridOrderLength` | snap/pipes.js:105-114 | the row-by-row listing of m rows of n cells has m * n entries |
| `Boards.GridOrderCells` | snap/pipes.js:105-114 | the row-by-row listing has no repeats and holds exactly the cells of rows 1..m |
| `Boards.GridHasSquareManyCells` | snap/pipes.js:141 | the grid has `size * size` cells, the `total_pipes` of `buildPipes` |
| `Boards.FullSubsetIsGrid` | snap/pipes.js:268 | a set of grid cells has at most n * n members, and n * n exactly when it is the whole grid |
| `Boards.DistinctCellsFillGrid` | snap/pipes.js:153 | a repeat-free list of grid cells has at most n * n entries and, with n * n, holds every cell |
| `Generation.Pick` | snap/pipes.js:155-158 | `Math.floor(Math.random() * n)` is an index below n |
| `Generation.TurnCount` | snap/pipes.js:179 | each pipe is scrambled by fewer than four turns |
| `Generation.BuildStep` | snap/pipes.js:155-168 | one loop turn keeps the cells and either leaves the tree alone or appends exactly one member |
| `Generation.Build` | snap/pipes.js:153-169 | the loop keeps the cells and only appends to the tree, whose start is kept |
| `Generation.BuildStops` | snap/pipes.js:153 | the loop stops once the tree holds n * n pipes or the draws have run out |
| `Generation.BuildUnfolds` | snap/pipes.js:153-169 | otherwise the loop takes one more step with the next draw |
| `Generation.TreeInvAtStart` | snap/pipes.js:144-151 | on a closed grid, the tree holding only the centre satisfies the tree invariant |
| `Generation.StepTargetIsNew` | snap/pipes.js:163 | a neighbour with no open connector is not yet in the tree, is not the picked pipe, and faces a closed slot |
| `Generation.OpenPair` | snap/pipes.js:164-165 | the two assignments open d on the pipe and the reverse of d on its neighbour, keep every open slot open, open no other slot and change no other cell |
| `Generation.OpenSlotsGrowByOne` | snap/pipes.js:164 | opening a closed slot adds exactly one open slot to the board |
| `Generation.OpenPairKeepsTree` | snap/pipes.js:163-168 | opening the facing pair to a fresh neighbour and appending it keeps the tree invariant |
| `Generation.BuildStepKeepsTree` | snap/pipes.js:155-168 | every loop turn keeps the tree invariant (distinct members, matched pairs, each member hanging on an earlier one, 2(k-1) open slots) |
| `Generation.BuildKeepsTree` | snap/pipes.js:153-169 | the whole loop keeps the tree invariant |
| `Generation.BuildResumes` | snap/pipes.js:153-169 | running the loop on some draws and then on more draws is running it on all of them at once |
| `Generation.BuildStopsWhenFullOrOutOfDraws` | snap/pipes.js:153 | the tree never exceeds n * n pipes; a run that ends short of n * n has used up its draws, so the first draw after them drives the next loop turn |
| `Generation.MembersReachFromCentre` | snap/pipes.js:160-167 | every member of the tree is reachable from the centre along generator links |
| `Generation.FullTreeSpansGrid` | snap/pipes.js:153-169 | a tree of n * n members holds every cell, reaches every cell from the centre, and has 2(n * n - 1) open slots |
| `Generation.FullTreeSolvedAfterOneTurn` | snap/pipes.js:222-264 | a complete tree with every pipe turned once is fully connected under the flood's offsets |
| `Generation.FirstPairIsNotFollowedByFlood` | snap/pipes.js:23-40 | on a 3 x 3 grid, the first pair the generator opens is not followed by the flood: the two offset tables disagree |
| `Generation.Scrambled` | snap/pipes.js:175-186 | scrambling keeps the set of cells; that it keeps each pipe's connectors is `ScrambleKeepsConnectorCounts` |
| `Generation.ScrambleOneMore` | snap/pipes.js:178-183 | one inner-loop turn gives cell (x, y) its own number of turns and changes no other cell |
| `Generation.ScrambleKeepsConnectorCounts` | snap/pipes.js:175-186 | scrambling keeps every pipe's number of open connectors |
| `Generation.ClicksToSolve` | snap/pipes.js:376-381 | after k < 4 scramble turns, (5 - k) % 4 clicks leave the pipe one turn past its generated position |
| `Generation.Clicked` | snap/pipes.js:376-381 | clicking pipes keeps the set of cells; that the clicks undo the scramble is `ClickingUndoesScramble` |
| `Generation.ClicksRestoreOneTurn` | snap/pipes.js:46-48 | k turns followed by `ClicksToSolve(k)` turns equal one turn |
| `Generation.ClickingUndoesScramble` | snap/pipes.js:175-186 | clicking each pipe `ClicksToSolve` times turns a scrambled board into the generated board turned once |
| `Generation.ScrambledPuzzleIsSolvable` | snap/pipes.js:175-186 | a scrambled complete tree is solved by those clicks: every cell becomes reachable under the flood's offsets |
| `Generation.CompleteBuildSpansGrid` | snap/pipes.js:139-170 | a complete run of `buildPipes` from a closed grid reaches every cell and opens 2(n * n - 1) slots |
| `Generation.GeneratedPuzzleIsSolvable` | snap/pipes.js:77-88 | every puzzle `init` generates with a complete tree can be solved by clicks |
| `Flood.Start` | snap/pipes.js:203-214 | the check starts with the centre lit and the centre alone on the stack |
| `Flood.Look` | snap/pipes.js:222-231 | one direction check lights at most one cell, only the neighbour in direction d and only over a link, and afterwards a linked neighbour in direction d is lit |
| `Flood.Expand` | snap/pipes.js:222-264 | the four checks unlight nothing, and afterwards every linked neighbour of the popped cell is lit |
| `Flood.Next` | snap/pipes.js:217-264 | one loop turn pops the top cell and leaves every linked neighbour of it lit, unlighting nothing |
| `Flood.StartInv` | snap/pipes.js:210-214 | the start state satisfies the loop invariant (lit cells on the grid and reachable, `connected_pipes` listing each lit cell once, off-stack cells settled) |
| `Flood.PopInv` | snap/pipes.js:218 | popping the top cell keeps every other off-stack lit cell settled |
| `Flood.LookInv` | snap/pipes.js:222-231 | one direction check keeps the invariant and settles the popped cell in that direction |
| `Flood.FinishInv` | snap/pipes.js:222-264 | once all four directions are checked, the popped cell is settled and the loop invariant holds again |
| `Flood.ExpandInv` | snap/pipes.js:222-264 | the four checks in the order Up, Down, Right, Left restore the loop invariant |
| `Flood.LookGrows` | snap/pipes.js:222-231 | a direction check changes nothing when the neighbour is lit or not linked; otherwise it lights that neighbour and pushes it on both lists |
| `Flood.ExpandGrows` | snap/pipes.js:222-264 | the four checks either change nothing or light at least one cell |
| `Flood.ExpandKeepsInv` | snap/pipes.js:217-265 | each loop turn keeps the invariant, in which `connected_pipes` has no repeats, and either lights a new cell (at most n * n ever) or shrinks the stack, so the loop ends and pushes each pipe at most once |
| `Flood.SearchDone` | snap/pipes.js:217-270 | with the stack empty, a cell is lit exactly when it is reachable from the centre, and `connected_pipes` has n * n entries exactly when every cell is lit |
| `Saves.RecordsOf` | snap/pipes.js:278 | the saved list has one record per listed cell, carrying its coordinates, slots and flag |
| `Saves.Placed` | snap/pipes.js:304-316 | the rebuild places a record only at the cell of its own coordinates |
| `Saves.PlacedAtOwnCell` | snap/pipes.js:304-316 | the rebuild fills the cell of every record, and only with one of the records |
| `Saves.PlacedOneMore` | snap/pipes.js:304-316 | one more loop turn of the rebuild places that record at its cell, replacing any earlier one |
| `Saves.LoadedBoard` | snap/pipes.js:304-316 | the rebuilt grid has a pipe exactly at the placed cells; that it is the saved board is `LoadUndoesSave` |
| `Saves.PlacedRecordsOf` | snap/pipes.js:304-316 | placing the records of a list of cells fills exactly those cells, each with its own record |
| `Saves.LoadRecordsOf` | snap/pipes.js:304-316 | records listing exactly the grid's cells fill the grid and load back the slots and flags they were taken from |
| `Saves.LoadUndoesSave` | snap/pipes.js:276-316 | loading what `save` writes fills the grid and gives back the board's slots and flags |
| `Grids.Grid.At` | snap/pipes.js:98 | the pipe at a cell belongs to the grid and carries that cell's coordinates |
| `Grids.Grid.AtOwnCell` | snap/pipes.js:127-131 | a pipe of the grid sits at its own coordinates, so no two cells share a pipe |
| `Grids.Grid.GetPipe` | snap/pipes.js:96-100 | `getPipe` returns a pipe exactly when (x, y) is on the grid, and then the pipe at (x, y) |
| `Grids.Grid.GetNeighbour` | snap/pipes.js:23-40 | `getNeighbour` returns a pipe exactly when the generator's step from p stays on the grid, and then the pipe there |
| `Grids.Grid.NeighbourOfNeighbourIsSelf` | snap/pipes.js:160-161 | the neighbour's neighbour in the reverse direction is the pipe itself |
| `Grids.Grid.constructor` | snap/pipes.js:54-58 | the grid starts with size 0 and no pipes |
| `Grids.Grid.InitPipes` | snap/pipes.js:121-134 | afterwards the grid has size n, a fresh pipe at every cell carrying its coordinates, every slot closed and every flag 0 |
| `Grids.Grid.GetPipes` | snap/pipes.js:105-114 | the list has `size * size` entries, the pipe of each cell in row-by-row order, no repeats, and holds every pipe of the grid |
| `Grids.Grid.ListingHoldsEveryPipeOnce` | snap/pipes.js:105-114 | a row-by-row listing of the cells' pipes holds each pipe exactly once |
| `Grids.Grid.Open` | snap/pipes.js:164-165 | one connector assignment opens slot d of that pipe and changes no other cell |
| `Grids.Grid.Grow` | snap/pipes.js:155-168 | one loop turn on the pipes does to the board and the tree what `BuildStep` does |
| `Grids.Grid.GrowTree` | snap/pipes.js:153-169 | the loop on the pipes does to the board what `Build` does and reports whether the tree was completed |
| `Grids.Grid.BuildPipes` | snap/pipes.js:139-170 | the board becomes `Build` of the old board; only the centre's flag changes, to 1; a complete run from a closed grid reaches every cell |
| `Grids.Grid.ScramblePipes` | snap/pipes.js:175-186 | the board becomes `Scrambled` of the old board, and every pipe keeps its number of open connectors |
| `Grids.Grid.ScrambleRow` | snap/pipes.js:177-184 | one pass of the inner loop scrambles row x and no other row |
| `Grids.Grid.ScrambleCell` | snap/pipes.js:178-183 | one inner-loop body turns the pipe at (x, y) by its own count and changes no other cell |
| `Grids.Grid.DeactivatePipes` | snap/pipes.js:191-197 | every flag becomes 0 and no slot changes |
| `Grids.Grid.Light` | snap/pipes.js:211 | `setActive(true)` on one pipe adds its cell to the lit set and changes no slot |
| `Grids.Grid.Follow` | snap/pipes.js:222-231 | one direction check on the pipes does to the flags and both lists what `Look` does to the cells |
| `Grids.Grid.Visit` | snap/pipes.js:222-264 | the four direction checks on the pipes do what `Expand` does to the cells |
| `Grids.Grid.CheckPipes` | snap/pipes.js:202-271 | the slots do not change; a pipe ends active exactly when it is reachable from the centre; the win test holds exactly when every pipe is active, that is, when every cell is reachable |
| `Grids.Grid.Save` | snap/pipes.js:276-285 | `save` writes the size and the records of the cells' slots and flags in row-by-row order |
| `Grids.Grid.Rebuild` | snap/pipes.js:301-316 | the rebuild leaves a valid grid of fresh pipes holding the records' slots and flags |
| `Grids.Grid.RebuiltBoard` | snap/pipes.js:304-316 | once every record is placed, the grid is valid and holds the saved slots and flags |
| `Grids.Grid.Load` | snap/pipes.js:291-321 | after `load` the grid holds the saved slots, and a pipe is active exactly when it is reachable from the centre |
| `Grids.Grid.Init` | snap/pipes.js:77-88 | an even size changes nothing; an odd size leaves the scrambled `Build` of a fresh grid, checked; a complete tree makes the puzzle solvable by clicks |
| `Grids.RotatePipe` | snap/pipes.js:376-383 | a click rotates the clicked pipe only; afterwards the flags mark exactly the pipes reachable from the centre |

## Left out

- Drawing (`draw`, lines 326-372), the page's click plumbing (`element.dataset`, lines 377-378), the `console.log` messages and the top-level `grid.init(5)` are not modelled. They are I/O.
- `Math.random` is not called. `buildPipes` takes a sequence of draws (a tree member and a direction per loop turn), and `scramblePipes` takes one random number per pipe.
- `localStorage` and `JSON.stringify`/`JSON.parse` in `save` and `load` are not modelled. `Save` returns the record list, and `Load` takes it as a parameter.
- Grids.Grid.BuildPipes: the source loops until the tree is complete, which happens with probability 1 but needs unboundedly many random numbers. The model runs on a finite list of draws and reports with `complete` whether the tree was completed. Only a complete run is proved to reach every cell.
- Grids.Grid.Init: returns `started`, `complete` and `won`, which the source does not return. `won` stands for the "Winner" message of `checkPipes`.
- Grids.Grid.CheckPipes: returns the win test as `won` in place of printing "Winner". Its loop carries a ghost copy of its state on cells (`Flood.Search`).
- The nested arrays `pipes[x][y]` are one map keyed by (x, y). The rows that `initPipes` and `load` create are not separate objects.
- `pipes.length`, the loop bound of `scramblePipes` and `deactivatePipes`, is taken as `size + 1`. That holds for a grid of size at least 1 built by `initPipes` or `load`. The empty grid of size 0 has `pipes.length` 0; both bounds then give no loop turns, so the model is the same there.
- `getPipes` iterates with `for ... in`, which the model takes to visit the indices in ascending order.
- A pipe's four-element `connections` array is the record `Slots`, indexed by direction. `rotate`'s two `splice` calls are the function `Rotated`.
- `getNeighbour` reads the global `grid` and sits on `Grid` in the model.
- Inputs that make the code crash are excluded by preconditions:
  - `init` requires an odd size of at least 1. Odd negative sizes are left out.
  - `buildPipes` requires a size of at least 1 (the centre pipe must exist).
  - `checkPipes` requires a size of at least 1.
  - A click requires in-range coordinates.
  - `load` requires saved records that fill a grid. Malformed saved data is left out.
- Grids.Grid.Load: the records' `active` flags are placed by `Rebuild` and then recomputed by `checkPipes`. `Load` states only the recomputed flags.
