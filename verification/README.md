# Lights Out board, modelled in Dafny

This project models the game logic of the `Board` component of a React
"Lights Out" puzzle. The board is an `nrows` by `ncols` grid of lights, each
lit (`true`) or unlit (`false`):

- `createBoard` fills the grid row by row. Each light is lit when the next
  random draw falls below `chanceLightStartsOn`.
- `hasWon` is true when no light is lit.
- `flipCellsAround(coord)` reads a cell key `"r-c"`. On a copy of the board it
  inverts that cell and its on-board neighbours above, below, left and right.
  `flipCell` silently skips any position off the board.
- Every rendered cell is keyed `rnum + "-" + cnum`. A click passes that key
  back to `flipCellsAround`.

Boards are immutable values, `seq<seq<bool>>` (`Board.Grid`). The dimensions
are passed explicitly because the component's closures read them from its
properties.

Files:

- `coord_key.dfy`, module `CoordKey`: builds the cell key and reads it back.
  This covers a one-character `split`, decimal text and the part of `Number`
  that keys use.
- `board.dfy`, module `Board`: board shape, creation from injected draws, the
  win test, `flipCell`, the five guarded flips, and the move driven by a key.
- `board_properties.dfy`, module `BoardProperties`: creation with chance 0
  and chance 1, a move undoes itself, moves commute, which cells a move
  changes, how many cells it flips (corner, edge or interior), and a click on
  a rendered cell.

What the code does not check, the model does not check either:

- An off-board centre is skipped silently, and any of its neighbours that
  lie on the board still flip (`Board.FlipCellsAt` takes any integer
  coordinate).
- `nrows`, `ncols` and `chanceLightStartsOn` are never validated.
- Nothing refuses a move after a win. Once won, the component renders only
  the win message, so no cell is left to click.

## Model

| member | source | states |
|---|---|---|
| `Board.DrawsBeforeIsProduct` | src/Board.js:36-40 | The rows before row r consume r·ncols draws, one per cell, so cell (r, c) uses draw number r·ncols + c |
| `Board.DrawIndexInRange` | src/Board.js:36-39 | The draw for any cell (r, c) of the board lies inside a stream of one draw per cell |
| `Board.CreateBoard` | src/Board.js:34-44 | The result has exactly nrows rows of exactly ncols lights. Cell (r, c) is lit iff its draw from the injected stream is below `chanceLightStartsOn` |
| `Board.HasWon` | src/Board.js:47-55 | Returns true iff no light in rows 0..nrows-1 and columns 0..ncols-1 is lit. Always true for a board with no cells |
| `Board.FlipCell` | src/Board.js:61-67 | Keeps the board's shape. Inverts exactly the light at (row, col) when it is on the board. Off the board it changes nothing |
| `Board.FlipCellsAt` | src/Board.js:69-80 | Keeps the board's shape. Inverts an on-board cell iff it is within Manhattan distance 1 of (row, col). All other cells stay as they were, for any integer centre |
| `Board.FlipCellsAround` | src/Board.js:57-81 | Keeps the board's shape. A key with a missing or non-numeric field leaves the board unchanged |
| `CoordKey.Split` | src/Board.js:59 | `split("-")` returns at least one piece. No piece holds the separator, joining the pieces back gives the input, and there is one piece iff the input has no separator |
| `CoordKey.NumberOf` | src/Board.js:59 | `Number` on a key field gives a number iff the field is all digits. The empty field reads as 0 |
| `CoordKey.ParseKey` | src/Board.js:59 | A key without a separator yields no coordinate, because the destructured column is undefined |
| `CoordKey.Decimal` | src/Board.js:100 | The text written for a cell index is non-empty, all digits, has no leading zero and no separator |
| `CoordKey.FormatKey` | src/Board.js:100 | The key `rnum + "-" + cnum` splits into exactly the two decimal fields |
| `CoordKey.SplitWithoutSeparator` | src/Board.js:59 | Splitting text with no separator gives the text as the only piece |
| `CoordKey.SplitAroundOne` | src/Board.js:59 | Two separator-free fields joined by one separator split back into those two fields |
| `CoordKey.DecimalRoundTrip` | src/Board.js:100 | Reading back the decimal text of an index gives the index |
| `CoordKey.KeyRoundTrip` | src/Board.js:59 | Parsing the key written for (rnum, cnum) gives (rnum, cnum) |
| `CoordKey.KeyInjective` | src/Board.js:100 | Distinct cells have distinct keys |
| `BoardProperties.CreateWithChanceZero` | src/Board.js:39 | With draws in [0, 1) and chance ≤ 0, every light starts unlit |
| `BoardProperties.CreateWithChanceOne` | src/Board.js:39 | With draws in [0, 1) and chance ≥ 1, every light starts lit |
| `BoardProperties.FlipTwiceRestores` | src/Board.js:64-77 | Two moves at the same coordinate return the original board |
| `BoardProperties.FlipsCommute` | src/Board.js:73-77 | Two moves give the same board in either order |
| `BoardProperties.MoveChangesCross` | src/Board.js:61-77 | The cells where a move's result differs from its input are exactly the on-board cells of the centre's cross |
| `BoardProperties.CrossListed` | src/Board.js:73-77 | For an on-board centre, the cross on the board is the centre plus each neighbour whose guard holds |
| `BoardProperties.CrossCellsSize` | src/Board.js:73-77 | That listing has one cell per guard that holds, plus the centre |
| `BoardProperties.FlipCount` | src/Board.js:73-77 | A move on an on-board cell flips 1 + (number of its on-board neighbours) cells |
| `BoardProperties.FlipCountByPlacement` | src/Board.js:73-77 | On a board of at least 2×2, a move flips 3 cells at a corner, 4 on a non-corner edge and 5 in the interior |
| `BoardProperties.ClickFlipsAroundCell` | src/Board.js:100 | Clicking the cell rendered at (rnum, cnum) flips around (rnum, cnum) |
| `BoardProperties.CentreClickOnDarkBoard` | src/Board.js:73-77 | On a dark 3×3 board, a centre click lights exactly the centre cross, so the board is not won. A second click makes the board dark again |

## Left out

- React machinery is not modelled: `useState`, `setBoard` and its updater
  scheduling, JSX rendering, the "YOU WIN!" markup, the `Cell` component and
  the CSS. The model also ignores when `hasWon` runs relative to a render.
  `Board.HasWon` is a pure test on a board.
- `Math.random` is replaced by an injected sequence of draws, one per cell,
  consumed in the order the loops call it.
- Floating point is not modelled. Draws and `chanceLightStartsOn` are exact
  reals.
- The JSON deep copy is not modelled separately. Boards are values, so the
  old board is never changed.
- `nrows` and `ncols` are natural numbers. JavaScript would also accept
  negative or fractional properties.
- CoordKey.NumberOf: models `Number` only for fields made of decimal digits
  (the empty field is 0). Other fields are treated as NaN. JavaScript reads
  some of them as numbers, for example fields with surrounding spaces, a
  leading `+`, an exponent, a fraction, `Infinity`, or a hexadecimal,
  binary or octal prefix. The component never renders such keys.
- Board.FlipCellsAround: for a key field such as `1.5` or ` 2`, JavaScript
  would flip cells or throw. The model leaves the board unchanged.
- The default properties `nrows = 5`, `ncols = 5` and
  `chanceLightStartsOn = .5` are not modelled. Every operation takes the
  dimensions and the chance as parameters.
- Board.HasWon: requires the board to be `nrows` by `ncols`. This holds only
  while `nrows` and `ncols` stay as they were at the first render, because
  `useState` keeps the first board. With a larger `nrows` the JavaScript
  reads a missing row and throws. With a larger `ncols` alone it reads
  `undefined` (unlit) past each row's end, and a move can lengthen a row.
  With smaller ones it would check only
  the top-left part of the board, and could report a win while other lights
  are still lit. The model does not cover properties that change.
- Board.FlipCell: requires the same shape, for the same reason. After the
  properties change, its bound test would use the new dimensions.
- Board.FlipCellsAt: requires the same shape, for the same reason.
- Board.FlipCellsAround: requires the same shape, for the same reason.
