# Add-venture: a verified model of the digit-path puzzle

Add-venture is a one-page browser puzzle (`app.js`). The page shows a square
grid of digits and a target number. The player taps cells to build a path.
Each new cell must touch the previous one horizontally, vertically or
diagonally. No cell may repeat within a path. No cell may belong to a path
accepted earlier. Submitting a path of at least two cells whose digits add up
to the target makes its cells used for good. When every cell is used, the
board is complete ("perfect").

The model keeps the program's own shape:

- `cells.dfy` (module `Cells`): coordinates, the adjacency test `isAdjacent`,
  and the string key `"r,c"` the program uses to store a coordinate in its
  set of used cells. The key is proved injective, so counting keys counts
  cells.
- `board.dfy` (module `Board`): a puzzle (size, target, grid), the built-in
  fallback puzzle, and the set of all cells of a board. It proves that this
  set has `size * size` elements, and that a set of on-board cells is
  complete exactly when it has that many.
- `paths.dfy` (module `Paths`): the path under construction as a sequence of
  `{r, c, val}` steps. It defines the running sum (the `reduce` of
  `currentSum`), the membership test used on the path, and the path
  invariant: simple, connected, on free cells, carrying grid values. It also
  proves how each edit keeps that invariant.
- `game.dfy` (module `Game`): the page's global state as a class `Session`.
  Its fields are `size`, `target`, `grid`, `used`, `current` and
  `pathsFound`. Its methods are the click handler (`Select`), `Undo`,
  `Clear`, `Submit` (with its loop over the path) and the reset done by
  `init` (`Load`). The module ends with two short scenarios on the built-in
  puzzle: a rejected top-row path and an accepted zigzag.

The program's set of string keys is modelled as a set of coordinates
(`Session.used`). `Session.UsedKeys` and `Cells.KeysCardinality` show that
the two have the same size, which is what the "used" counter and the perfect
test read.

The model follows the program's behaviour:

- Tapping the last cell of the path again is refused as "already in this
  path" (app.js:146-149). It does not undo the step.
- The program does not search for a remaining solution and has no "stuck"
  state, so neither does the model.
- The program does not record accepted paths one by one. It keeps only their
  cells (`used`) and their number (`pathsFound`), and so does the model.

## Model

| member | source | states |
|---|---|---|
| Cells.IsAdjacent | app.js:81-85 | two cells are adjacent exactly when they differ and each coordinate differs by at most one (8-neighbourhood) |
| Cells.AdjacentSymmetric | app.js:81-85 | adjacency does not depend on the order of its arguments |
| Cells.AdjacentIrreflexive | app.js:81-85 | no cell is adjacent to itself (`dr + dc > 0`) |
| Cells.Decimal | app.js:41-43 | the decimal rendering of a number is non-empty, all digits, and has at least two digits from 10 on |
| Cells.DecimalInjective | app.js:41-43 | different numbers render as different digit strings |
| Cells.Key | app.js:41-43 | the key is the row's digits, a comma, then the column's digits |
| Cells.KeyInjective | app.js:41-43 | two coordinates with the same `"r,c"` key are the same coordinate |
| Cells.Keys | app.js:37 | every stored cell's key is in the key set |
| Cells.KeysCardinality | app.js:37-43 | the set of keys has exactly as many elements as the set of cells it encodes |
| Board.FallbackWellFormed | app.js:7-17 | the built-in puzzle is a 5-by-5 grid with target 18 |
| Board.AllCells | app.js:115-116 | a cell belongs to the board's cell set exactly when it lies within the board |
| Board.AllCellsCardinality | app.js:99 | a size-by-size board has `size * size` cells |
| Board.FullBoard | app.js:99-102 | on-board used cells number at most `size * size`, and exactly that many precisely when every cell is used |
| Paths.Occurs | app.js:146 | `current.some(x => x.r === r && x.c === c)`: true exactly when some step is at the given cell |
| Paths.SumIsGridTotal | app.js:87-89 | for a path whose values were read from the grid, the running sum equals the grid total over the path's cells |
| Game.Session.CurrentSumIsGridTotal | app.js:87-89 | in every valid state, `currentSum()` (the `reduce` over the path) equals the grid total over the path's cells |
| Paths.ExtendPath | app.js:142-161 | appending a free, unvisited cell that touches the last step keeps the path simple, connected and on free cells |
| Paths.ShortenPath | app.js:166-168 | dropping steps from the end keeps the path well built |
| Paths.SimpleCellCount | app.js:146-149 | a path that never repeats a cell visits exactly as many cells as it has steps |
| Paths.RetirePath | app.js:192 | marking a well-built path's cells used adds exactly one new cell per step, all on the board |
| Game.Session.constructor | app.js:32-39 | the page starts on the built-in puzzle with nothing used, no path and no path found |
| Game.Session.Load | app.js:200-209 | a loaded puzzle replaces size, target and grid, and used, current and pathsFound are reset |
| Game.Session.Perfect | app.js:102 | `used.size === size * size` holds exactly when every cell of the board is used |
| Game.Session.UsedKeys | app.js:37-43 | the keys of the used cells are as many as the used cells, so `used.size` counts cells |
| Game.Session.UsedBounded | app.js:99 | the used counter never exceeds `size * size` |
| Game.Session.Select | app.js:139-164 | a used cell, a cell already on the path (including the last one) and a cell not touching the last are each refused, exactly in those cases and in that order, with nothing changed; otherwise exactly `{r, c, grid[r][c]}` is appended and the sum grows by that value; the game invariant is kept |
| Game.Session.Undo | app.js:166-171 | an empty path stays empty; otherwise exactly the last step is removed; nothing else changes |
| Game.Session.Clear | app.js:173-177 | the path becomes empty and nothing else changes |
| Game.Session.MarkUsed | app.js:192 | the loop adds every cell of the path to `used`, so `used` becomes the old used cells plus the path's cells, one more cell per step |
| Game.Session.Submit | app.js:179-198 | a path shorter than two is refused, and a path whose sum is not the target is refused with its sum; both change nothing. An accepted path's cells join `used` (growing it by the path length), pathsFound grows by one and the path empties. `used` only grows and stays within `size * size` |
| Game.TapTopRow | app.js:139-164 | on the built-in puzzle, (0,0) then (2,2) is refused as not touching, and the top row (0,0)..(0,3) sums to 17 |
| Game.FallbackWrongSum | app.js:179-189 | on the built-in puzzle, the top-row path summing to 17 is refused as `WrongSum(17)` and leaves nothing used and the path intact |
| Game.TapZigzag | app.js:139-164 | on the built-in puzzle, (0,0) (1,1) (0,2) (0,1) sums to 18, and tapping the last cell (0,2) again is refused as already in the path |
| Game.FallbackAccepted | app.js:179-198 | that path is accepted: four cells become used, one path is counted, and the board is not complete |

## Left out

- Rendering and messages (`setMsg`, `updateStats`, `render`; app.js:19-30, 91-137) are not modelled. The outcome datatypes `SelectOutcome` and `SubmitOutcome` stand for the message each branch shows.
- Fetching the puzzle (`loadPuzzle`, app.js:68-79) is network I/O and is not modelled. `Load` takes the puzzle it would return as a parameter. The asynchronous `init` is modelled by `Load` alone.
- `parseCSV` (app.js:45-66) is not modelled. It parses text with JavaScript's `Number` into floating-point values, which the model does not represent. `Load` asks only that the grid be square, which the parser guarantees with its fixed 5-by-5 shape.
- Game.Session.Select: requires the coordinate to lie on the board. The program only attaches click handlers to on-board cells (app.js:115-131), so that is the only way the handler is reached. The same holds for the button wiring (app.js:215-218), which the model leaves out.
- Numbers are modelled as unbounded integers. The program uses floating-point numbers, which agree for the small digit sums of a puzzle but not for arbitrary values.
- Cells.Key: defined only for non-negative coordinates, which are the only ones the program forms.
