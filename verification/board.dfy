/**
 The Lights Out board: a grid of lights, each lit (`true`) or unlit
 (`false`). A game starts from a randomly lit board; clicking a cell inverts
 it and its in-board neighbours above, below, left and right; the player wins
 when every light is off.

 The board's dimensions `nrows` and `ncols` are properties of the component
 and are passed explicitly, as the component's closures read them. Boards are
 values: a move returns a new board and leaves the old one as it was.
 */
module Board {
  import CoordKey

  /** The board state: a sequence of rows, each a sequence of lights. */
  type Grid = seq<seq<bool>>

  /** `board` has exactly `nrows` rows of exactly `ncols` lights. */
  predicate Shaped(board: Grid, nrows: nat, ncols: nat) {
    |board| == nrows && forall r :: 0 <= r < |board| ==> |board[r]| == ncols
  }

  /** (row, col) names a cell of an `nrows` by `ncols` board. */
  predicate InBounds(nrows: nat, ncols: nat, row: int, col: int) {
    0 <= row < nrows && 0 <= col < ncols
  }

  /** No light of the board is lit. */
  predicate AllUnlit(board: Grid) {
    forall r, c :: 0 <= r < |board| && 0 <= c < |board[r]| ==> !board[r][c]
  }

  /** Every light of the board is lit. */
  predicate AllLit(board: Grid) {
    forall r, c :: 0 <= r < |board| && 0 <= c < |board[r]| ==> board[r][c]
  }

  // ---------------------------------------------------------------------
  // Creating a board
  // ---------------------------------------------------------------------

  /** Every draw lies in [0, 1), as `Math.random()` promises. */
  predicate UnitDraws(draws: seq<real>) {
    forall i :: 0 <= i < |draws| ==> 0.0 <= draws[i] < 1.0
  }

  /** How many draws the rows before row `r` take: `ncols` each, since cells
      draw in row-major order. */
  function DrawsBefore(ncols: nat, r: nat): nat {
    if r == 0 then 0 else DrawsBefore(ncols, r - 1) + ncols
  }

  /** The rows before row `r` take r * ncols draws. */
  lemma {:induction false} DrawsBeforeIsProduct(ncols: nat, r: nat)
    ensures DrawsBefore(ncols, r) == r * ncols
  {
    if r > 0 {
      DrawsBeforeIsProduct(ncols, r - 1);
    }
  }

  /** Draw number DrawsBefore(ncols, r) + c, the one for cell (r, c), lies in a
      stream of one draw per cell. */
  lemma {:induction false} DrawIndexInRange(nrows: nat, ncols: nat, r: nat, c: nat)
    requires r < nrows && c < ncols
    ensures DrawsBefore(ncols, r) + c < DrawsBefore(ncols, nrows)
    decreases nrows
  {
    if r < nrows - 1 {
      DrawIndexInRange(nrows - 1, ncols, r, c);
    }
  }

  /** The draw that decides cell (r, c). */
  function DrawFor(draws: seq<real>, nrows: nat, ncols: nat, r: nat, c: nat): real
    requires |draws| == DrawsBefore(ncols, nrows) && r < nrows && c < ncols
  {
    DrawIndexInRange(nrows, ncols, r, c);
    draws[DrawsBefore(ncols, r) + c]
  }

  /** `board` is the board drawn from `draws`: `nrows` by `ncols`, and a cell is
      lit exactly when its draw falls below `chanceLightStartsOn`. */
  predicate DrawnFrom(board: Grid, nrows: nat, ncols: nat, chanceLightStartsOn: real, draws: seq<real>)
    requires |draws| == DrawsBefore(ncols, nrows)
  {
    && Shaped(board, nrows, ncols)
    && forall r, c :: 0 <= r < nrows && 0 <= c < ncols ==>
         board[r][c] == (DrawFor(draws, nrows, ncols, r, c) < chanceLightStartsOn)
  }

  /** `createBoard`: one row at a time, one light at a time, each lit when the
      next draw of the random stream is below `chanceLightStartsOn`. The
      stream holds one draw per cell. */
  method CreateBoard(nrows: nat, ncols: nat, chanceLightStartsOn: real, draws: seq<real>)
    returns (board: Grid)
    requires |draws| == DrawsBefore(ncols, nrows)
    ensures DrawnFrom(board, nrows, ncols, chanceLightStartsOn, draws)
  {
    board := [];
    var next := 0;
    var row := 0;
    while row < nrows
      invariant row <= nrows
      invariant next == DrawsBefore(ncols, row)
      invariant Shaped(board, row, ncols)
      invariant forall r, c :: 0 <= r < row && 0 <= c < ncols ==>
                  board[r][c] == (DrawFor(draws, nrows, ncols, r, c) < chanceLightStartsOn)
    {
      var rowArray := [];
      var col := 0;
      while col < ncols
        invariant col <= ncols
        invariant next == DrawsBefore(ncols, row) + col
        invariant |rowArray| == col
        invariant forall c :: 0 <= c < col ==>
                    rowArray[c] == (DrawFor(draws, nrows, ncols, row, c) < chanceLightStartsOn)
      {
        DrawIndexInRange(nrows, ncols, row, col);
        rowArray := rowArray + [draws[next] < chanceLightStartsOn];
        next := next + 1;
        col := col + 1;
      }
      board := board + [rowArray];
      row := row + 1;
    }
  }

  // ---------------------------------------------------------------------
  // Winning
  // ---------------------------------------------------------------------

  /** `hasWon`: scans the board row by row and stops at the first lit light.
      A board without cells is won. */
  method HasWon(board: Grid, nrows: nat, ncols: nat) returns (won: bool)
    requires Shaped(board, nrows, ncols)
    ensures won <==> AllUnlit(board)
    ensures won <==> forall r, c :: InBounds(nrows, ncols, r, c) ==> !board[r][c]
    ensures nrows == 0 || ncols == 0 ==> won
  {
    var row := 0;
    while row < nrows
      invariant row <= nrows
      invariant forall r, c :: 0 <= r < row && 0 <= c < ncols ==> !board[r][c]
    {
      var col := 0;
      while col < ncols
        invariant col <= ncols
        invariant forall c :: 0 <= c < col ==> !board[row][c]
      {
        if board[row][col] {
          return false;
        }
        col := col + 1;
      }
      row := row + 1;
    }
    return true;
  }

  // ---------------------------------------------------------------------
  // Moving
  // ---------------------------------------------------------------------

  function Abs(x: int): nat {
    if x < 0 then -x else x
  }

  /** (r, c) is the cell (row, col) itself or one of its four orthogonal neighbours. */
  predicate InCross(row: int, col: int, r: int, c: int) {
    Abs(r - row) + Abs(c - col) <= 1
  }

  /** `flipCell`: inverts the light at (row, col) when that is on the board,
      and silently leaves the board alone otherwise. */
  function FlipCell(board: Grid, nrows: nat, ncols: nat, row: int, col: int): (flipped: Grid)
    requires Shaped(board, nrows, ncols)
    ensures Shaped(flipped, nrows, ncols)
    ensures forall r, c :: InBounds(nrows, ncols, r, c) ==>
              flipped[r][c] == (board[r][c] != (r == row && c == col))
  {
    if InBounds(nrows, ncols, row, col) then
      board[row := board[row][col := !board[row][col]]]
    else
      board
  }

  /** The body of `flipCellsAround` once the key is read: on a copy of the
      board, flip (row, col), then each neighbour whose guard holds. The
      coordinate itself is not checked, so a centre off the board is skipped
      while its neighbours that are on the board still flip. */
  function FlipCellsAt(board: Grid, nrows: nat, ncols: nat, row: int, col: int): (next: Grid)
    requires Shaped(board, nrows, ncols)
    ensures Shaped(next, nrows, ncols)
    ensures forall r, c :: InBounds(nrows, ncols, r, c) ==>
              next[r][c] == (board[r][c] != InCross(row, col, r, c))
  {
    var b1 := FlipCell(board, nrows, ncols, row, col);
    var b2 := if row - 1 > -1 then FlipCell(b1, nrows, ncols, row - 1, col) else b1;
    var b3 := if col - 1 > -1 then FlipCell(b2, nrows, ncols, row, col - 1) else b2;
    var b4 := if row + 1 < nrows then FlipCell(b3, nrows, ncols, row + 1, col) else b3;
    if col + 1 < ncols then FlipCell(b4, nrows, ncols, row, col + 1) else b4
  }

  /** `flipCellsAround(coord)`: reads the row and column from the cell key and
      flips around them. A key with a missing or non-numeric field leaves the
      board unchanged, since every bound test on NaN or undefined fails. */
  function FlipCellsAround(board: Grid, nrows: nat, ncols: nat, coord: string): (next: Grid)
    requires Shaped(board, nrows, ncols)
    ensures Shaped(next, nrows, ncols)
    ensures CoordKey.ParseKey(coord).None? ==> next == board
  {
    match CoordKey.ParseKey(coord)
    case None => board
    case Some((row, col)) => FlipCellsAt(board, nrows, ncols, row, col)
  }

  /** Two boards of one shape that agree on every cell are the same board. */
  lemma SameCells(a: Grid, b: Grid, nrows: nat, ncols: nat)
    requires Shaped(a, nrows, ncols) && Shaped(b, nrows, ncols)
    requires forall r, c :: InBounds(nrows, ncols, r, c) ==> a[r][c] == b[r][c]
    ensures a == b
  {
    forall r | 0 <= r < nrows
      ensures a[r] == b[r]
    {
      assert forall c :: 0 <= c < ncols ==> a[r][c] == b[r][c];
    }
  }
}
