# Lights Out board engine in Dafny

This project models the game-state engine of a React "Lights Out" game (`src/Board.js`).
The engine has three parts:

- **Creating the board.** An `nrows`-by-`ncols` grid of booleans is built row by row. A cell
  is lit when its random sample is below `chanceLightStartsOn`.
- **The transition rule `flipCellsAround`.** It negates the clicked cell and its four
  orthogonal neighbours. Candidates that fall outside the board are skipped. It then
  recomputes `hasWon` as "every cell is off".
- **The cell key `y-x`.** The board renders each cell under this key and hands it back to
  `flipCellsAround`, which splits and parses it.

The model has three modules:

- `Coord` (`coord.dfy`): the key format and its parser, as pure functions. This covers the
  decimal text of a number, `split("-")` and `Number` on digit strings. It proves that
  parsing a rendered key gives back its cell.
- `Grid` (`grid.dfy`): the grid as a value. It holds the bounds test, the inner `flipCell`
  (`Toggled`), the five-cell flip (`FlippedAround`) and the nested `every` win test
  (`AllOff`). It proves the properties of the flip: which cells change, how many, flip-twice,
  and when a flip is a no-op.
- `LightsOut` (`board.dfy`): the component as a class `Board`.
  - The properties are `const` fields: `nrows`, `ncols` and `chanceLightStartsOn`.
  - The state is a grid field `board` (`seq<seq<bool>>`) and `hasWon`.
  - `CreateBoard` has the source's nested loops, proved against the predicate `DrawnFrom`.
  - `FlipCell`, `FlipCellsAround` and `FlipCellsAroundKey` update the fields and are proved
    against the `Grid` functions.
  - The method `CentreTwice` is a client. It replays a game on a 3-by-3 board using only
    these contracts.

Randomness is a parameter. `samples: seq<real>` holds the successive values of
`Math.random()`, one per cell in row-major order. Cell `(y, x)` is decided by sample
`y * ncols + x`.

In three places the code does less than one might expect, and the model follows the code:

- **Initial `hasWon`.** The constructor sets `hasWon` to false whatever the board drawn
  (src/Board.js:45-49). This holds even when the board starts all off, although the doc
  comment (src/Board.js:17) calls `hasWon` "true when board is all off". The flag agrees
  with the grid only after the first flip. `CentreTwice` shows an all-off board with
  `hasWon` false.
- **Board size.** There is no check that `nrows` and `ncols` are positive. A board with no
  rows or no columns is simply empty.
- **Chance range.** There is no range check on `chanceLightStartsOn`.

Two predicates without contracts of their own carry the specification: `Grid.InBounds` is the
on-board test of `flipCell` (src/Board.js:86), and `LightsOut.DrawnFrom` states what
`createBoard` builds from its samples.

## Model

| member | source | states |
|---|---|---|
| `Coord.DecimalString` | src/Board.js:133 | the text of `${n}` for n >= 0 is non-empty, has only decimal digits, and starts with '0' only when n is 0 |
| `Coord.Split` | src/Board.js:80 | `split` gives at least one part and no part contains the separator |
| `Coord.JoinSplit` | src/Board.js:80 | splitting loses nothing: joining the parts with the separator restores the string |
| `Coord.SplitAtSep` | src/Board.js:80 | splitting `a-b`, where neither a nor b holds a '-', gives exactly the two parts a and b |
| `Coord.DigitsValueOfDecimal` | src/Board.js:80 | the value of the decimal digits of n is n |
| `Coord.NumberOfDecimal` | src/Board.js:80 | `Number` of the decimal text of n is n |
| `Coord.NumberOf` | src/Board.js:80 | `Number` accepts exactly the non-empty digit strings, and reads a canonical part back as the number whose decimal text it is |
| `Coord.Format` | src/Board.js:133 | the key of cell (y, x) splits on '-' into exactly two parts, the canonical decimal texts of y and x |
| `Coord.Parse` | src/Board.js:80 | the key is accepted iff it has at least two '-'-separated parts and both are numbers; y and x are `Number` of the first two parts, further parts ignored |
| `Coord.DecimalOfDigits` | src/Board.js:80 | the decimal text of the value of a canonical digit string is that string |
| `Coord.FormatParse` | src/Board.js:80 | a key of two canonical numbers joined by '-' parses, and formatting the result gives the key back |
| `Coord.ParseFormat` | src/Board.js:133 | parsing the key rendered for cell (y, x) gives back (y, x) |
| `Coord.FormatInjective` | src/Board.js:133-136 | cells with the same key are the same cell, so distinct cells get distinct keys |
| `Grid.RowAllOff` | src/Board.js:101 | `row.every(cell => !cell)` holds iff no cell of the row is lit |
| `Grid.AllOff` | src/Board.js:101 | the win test holds iff every cell of every row is off |
| `Grid.Toggled` | src/Board.js:82-91 | `flipCell` keeps the shape and negates exactly cell (y, x) when it is on the board; off the board the grid is unchanged |
| `Grid.FlippedAround` | src/Board.js:93-98 | the five `flipCell` calls keep the shape, negate every board cell within distance one of (y, x), and leave every other cell as it was |
| `Grid.ClippedIsNeighbourhood` | src/Board.js:94-98 | the clipped candidate set is exactly the board cells within distance one of (y, x) |
| `Grid.FlipChangesExactlyClipped` | src/Board.js:86-98 | the set of cells a flip changes equals the five candidates clipped to the board |
| `Grid.FlipTwice` | src/Board.js:82-98 | flipping around the same coordinate twice restores the grid |
| `Grid.FlipIsIdentityIff` | src/Board.js:86-98 | a flip leaves the grid unchanged iff none of its five candidates lies on the board |
| `Grid.ClippedCount` | src/Board.js:86-98 | a flip around a board cell changes 5 cells, minus one per board border the cell lies on: 5 inside, 4 on an edge, 3 in a corner |
| `Grid.CornerFlip` | src/Board.js:94-98 | on a board of at least 2 by 2, a flip at (0, 0) changes exactly (0, 0), (0, 1) and (1, 0) |
| `LightsOut.RowMajorBound` | src/Board.js:58-64 | row-major position y * ncols + x of a board cell is below nrows * ncols |
| `LightsOut.SampleIndex` | src/Board.js:58-64 | the sample deciding a board cell is one of the nrows * ncols samples drawn |
| `LightsOut.SampleIndexInjective` | src/Board.js:58-64 | distinct cells are decided by distinct samples, so each sample is used once |
| `LightsOut.DrawnFromUnique` | src/Board.js:54-74 | the samples fix the board: two boards drawn from the same samples are equal |
| `LightsOut.ZeroChanceAllOff` | src/Board.js:64 | with chance <= 0 and samples that are never negative, the drawn board is all off |
| `LightsOut.FullChanceAllLit` | src/Board.js:64 | with every sample below the chance, every cell of the drawn board is lit |
| `LightsOut.Board.constructor` | src/Board.js:43-52 | the properties are stored, `board` is drawn from the samples as createBoard does, and `hasWon` starts false |
| `LightsOut.Board.CreateBoard` | src/Board.js:54-74 | returns exactly nrows rows of ncols cells; cell (y, x) is lit iff the sample drawn for it in row-major order is below chanceLightStartsOn |
| `LightsOut.Board.FlipCell` | src/Board.js:82-91 | negates `board[y][x]` when 0 <= x < ncols and 0 <= y < nrows, otherwise changes nothing; `hasWon` is untouched |
| `LightsOut.Board.FlipCellsAround` | src/Board.js:76-105 | the board keeps its dimensions; exactly the in-bounds cells among (y, x) and its four neighbours are negated; `hasWon` becomes "every cell is off" |
| `LightsOut.Board.FlipCellsAroundKey` | src/Board.js:76-80 | a rendered key is parsed into (y, x), then the flip and the win recomputation happen as for `FlipCellsAround` |

## Left out

- Rendering is not modelled: `render`, the JSX table and win banner, the `Cell` component,
  `Board.css` and the imports (src/Board.js:1-3, 109-159). They are presentation only. Of
  `render`, only the key format at line 133 is modelled.
- `Math.random()` is not modelled, and neither is the floating-point comparison against it.
  The samples are exact reals supplied by the caller. Their uniform distribution and
  independence are not modelled.
- The `console.log` calls (src/Board.js:77, 102) are left out, because they are output only.
- React's `setState` is modelled as a plain synchronous assignment of `board` and `hasWon`.
  Its batching and updater callback are left out, and so is the `bind` at src/Board.js:51.
- `Board.CreateBoard` is called in the second phase of the constructor, after the
  properties are set. The source calls it while building the initial state. Nothing can
  observe the difference.
- The source mutates the shared rows in place (`board[y][x] = ...` on the same array that
  `this.state.board` holds). The model assigns a new grid value to the `board` field, so
  the aliasing is not captured.
- The dimensions `nrows` and `ncols` are naturals. In the source they are JavaScript
  numbers, so a negative value (an empty board) or a fractional one (2.5 gives three rows
  through `y < nrows`) can occur there, and the model does not cover either case.
- `defaultProps` (5, 5, 0.25 at src/Board.js:35-41) is not modelled as defaults. The
  constructor takes all three properties as arguments.
- LightsOut.Board.FlipCellsAroundKey: requires a key whose first two '-'-separated parts
  are non-empty strings of decimal digits. This is the only kind of key the board renders.
  On other strings, `Number` behaves in ways the model does not capture: leading minus
  signs, whitespace, hexadecimal, the empty string read as 0, and NaN.
- Coord.Format: writes every natural number in plain decimal. JavaScript uses exponent
  notation from 10^21 on, and numbers above 2^53 lose precision. Board indices never get
  that large.
