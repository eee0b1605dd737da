/**
 What the board's operations promise when taken together: creation with a
 certain chance, a move undone by the same move, moves in any order, which
 cells a move touches and how many, and a click on a rendered cell.
 */
module BoardProperties {
  import CoordKey
  import opened Board

  // ---------------------------------------------------------------------
  // Creation
  // ---------------------------------------------------------------------

  /** With no chance of a light starting on, every light starts off, and the
      fresh board is already won. */
  lemma CreateWithChanceZero(board: Grid, nrows: nat, ncols: nat, chanceLightStartsOn: real, draws: seq<real>)
    requires |draws| == DrawsBefore(ncols, nrows) && UnitDraws(draws)
    requires DrawnFrom(board, nrows, ncols, chanceLightStartsOn, draws)
    requires chanceLightStartsOn <= 0.0
    ensures AllUnlit(board)
  {
    forall r, c | 0 <= r < |board| && 0 <= c < |board[r]|
      ensures !board[r][c]
    {
      DrawIndexInRange(nrows, ncols, r, c);
    }
  }

  /** With a chance of one (or more), every light starts on. */
  lemma CreateWithChanceOne(board: Grid, nrows: nat, ncols: nat, chanceLightStartsOn: real, draws: seq<real>)
    requires |draws| == DrawsBefore(ncols, nrows) && UnitDraws(draws)
    requires DrawnFrom(board, nrows, ncols, chanceLightStartsOn, draws)
    requires chanceLightStartsOn >= 1.0
    ensures AllLit(board)
  {
    forall r, c | 0 <= r < |board| && 0 <= c < |board[r]|
      ensures board[r][c]
    {
      DrawIndexInRange(nrows, ncols, r, c);
    }
  }

  // ---------------------------------------------------------------------
  // Moves
  // ---------------------------------------------------------------------

  /** Clicking the same cell twice restores the board. */
  lemma FlipTwiceRestores(board: Grid, nrows: nat, ncols: nat, row: int, col: int)
    requires Shaped(board, nrows, ncols)
    ensures FlipCellsAt(FlipCellsAt(board, nrows, ncols, row, col), nrows, ncols, row, col) == board
  {
    var twice := FlipCellsAt(FlipCellsAt(board, nrows, ncols, row, col), nrows, ncols, row, col);
    SameCells(twice, board, nrows, ncols);
  }

  /** The order of two clicks does not matter. */
  lemma FlipsCommute(board: Grid, nrows: nat, ncols: nat, row1: int, col1: int, row2: int, col2: int)
    requires Shaped(board, nrows, ncols)
    ensures FlipCellsAt(FlipCellsAt(board, nrows, ncols, row1, col1), nrows, ncols, row2, col2)
         == FlipCellsAt(FlipCellsAt(board, nrows, ncols, row2, col2), nrows, ncols, row1, col1)
  {
    var a := FlipCellsAt(FlipCellsAt(board, nrows, ncols, row1, col1), nrows, ncols, row2, col2);
    var b := FlipCellsAt(FlipCellsAt(board, nrows, ncols, row2, col2), nrows, ncols, row1, col1);
    SameCells(a, b, nrows, ncols);
  }

  /** The cells at which two boards of one shape differ. */
  ghost function Changed(a: Grid, b: Grid, nrows: nat, ncols: nat): set<(int, int)>
    requires Shaped(a, nrows, ncols) && Shaped(b, nrows, ncols)
  {
    set r, c | 0 <= r < nrows && 0 <= c < ncols && a[r][c] != b[r][c] :: (r, c)
  }

  /** The cells of the board that lie in the cross centred on (row, col). */
  ghost function CrossOnBoard(nrows: nat, ncols: nat, row: int, col: int): set<(int, int)> {
    set r, c | 0 <= r < nrows && 0 <= c < ncols && InCross(row, col, r, c) :: (r, c)
  }

  /** A move changes exactly the on-board cells of its cross, wherever its
      centre lies; every other cell keeps its light. */
  lemma MoveChangesCross(board: Grid, nrows: nat, ncols: nat, row: int, col: int)
    requires Shaped(board, nrows, ncols)
    ensures Changed(board, FlipCellsAt(board, nrows, ncols, row, col), nrows, ncols)
         == CrossOnBoard(nrows, ncols, row, col)
  {
    var next := FlipCellsAt(board, nrows, ncols, row, col);
    forall p | p in CrossOnBoard(nrows, ncols, row, col)
      ensures p in Changed(board, next, nrows, ncols)
    {
      var (r, c) := p;
      assert board[r][c] != next[r][c];
    }
  }

  /** How many of the four orthogonal neighbours of (row, col) lie on the board. */
  function NeighboursOnBoard(nrows: nat, ncols: nat, row: int, col: int): nat {
    (if row > 0 then 1 else 0) + (if row + 1 < nrows then 1 else 0)
    + (if col > 0 then 1 else 0) + (if col + 1 < ncols then 1 else 0)
  }

  /** `s` with `x` added when `cond` holds. */
  function AddIf(s: set<(int, int)>, cond: bool, x: (int, int)): set<(int, int)> {
    if cond then s + {x} else s
  }

  /** The cross of a board cell listed cell by cell: the cell, then each
      neighbour whose guard in the move holds. */
  function CrossCells(nrows: nat, ncols: nat, row: int, col: int): set<(int, int)> {
    var withUp := AddIf({(row, col)}, row > 0, (row - 1, col));
    var withLeft := AddIf(withUp, col > 0, (row, col - 1));
    var withDown := AddIf(withLeft, row + 1 < nrows, (row + 1, col));
    AddIf(withDown, col + 1 < ncols, (row, col + 1))
  }

  /** For a cell on the board, the listing names exactly the cross on the board. */
  lemma CrossListed(nrows: nat, ncols: nat, row: int, col: int)
    requires InBounds(nrows, ncols, row, col)
    ensures CrossOnBoard(nrows, ncols, row, col) == CrossCells(nrows, ncols, row, col)
  {
    var cross := CrossOnBoard(nrows, ncols, row, col);
    var listed := CrossCells(nrows, ncols, row, col);
    forall p | p in cross
      ensures p in listed
    {
      var (r, c) := p;
      assert InCross(row, col, r, c);
    }
    forall p | p in listed
      ensures p in cross
    {
      var (r, c) := p;
      assert InBounds(nrows, ncols, r, c) && InCross(row, col, r, c);
    }
  }

  /** Adding a cell that is not there yet grows the set by one. */
  lemma AddIfSize(s: set<(int, int)>, cond: bool, x: (int, int))
    requires cond ==> x !in s
    ensures |AddIf(s, cond, x)| == |s| + (if cond then 1 else 0)
  {
  }

  /** The listing holds one cell per guard that holds, plus the centre. */
  lemma CrossCellsSize(nrows: nat, ncols: nat, row: int, col: int)
    ensures |CrossCells(nrows, ncols, row, col)| == 1 + NeighboursOnBoard(nrows, ncols, row, col)
  {
    var withUp := AddIf({(row, col)}, row > 0, (row - 1, col));
    AddIfSize({(row, col)}, row > 0, (row - 1, col));
    var withLeft := AddIf(withUp, col > 0, (row, col - 1));
    AddIfSize(withUp, col > 0, (row, col - 1));
    var withDown := AddIf(withLeft, row + 1 < nrows, (row + 1, col));
    AddIfSize(withLeft, row + 1 < nrows, (row + 1, col));
    AddIfSize(withDown, col + 1 < ncols, (row, col + 1));
  }

  /** A move on a board cell flips that cell and each of its neighbours on the board. */
  lemma FlipCount(board: Grid, nrows: nat, ncols: nat, row: int, col: int)
    requires Shaped(board, nrows, ncols)
    requires InBounds(nrows, ncols, row, col)
    ensures |Changed(board, FlipCellsAt(board, nrows, ncols, row, col), nrows, ncols)|
         == 1 + NeighboursOnBoard(nrows, ncols, row, col)
  {
    MoveChangesCross(board, nrows, ncols, row, col);
    CrossListed(nrows, ncols, row, col);
    CrossCellsSize(nrows, ncols, row, col);
  }

  /** Where a cell sits on the board. */
  datatype Placement = Corner | Edge | Interior

  function PlacementOf(nrows: nat, ncols: nat, row: int, col: int): Placement {
    var onRowEdge := row == 0 || row == nrows - 1;
    var onColEdge := col == 0 || col == ncols - 1;
    if onRowEdge && onColEdge then Corner
    else if onRowEdge || onColEdge then Edge
    else Interior
  }

  /** On a board of at least two rows and two columns a click flips three
      cells in a corner, four on an edge and five inside. */
  lemma FlipCountByPlacement(board: Grid, nrows: nat, ncols: nat, row: int, col: int)
    requires Shaped(board, nrows, ncols)
    requires InBounds(nrows, ncols, row, col)
    requires nrows >= 2 && ncols >= 2
    ensures var flipped := |Changed(board, FlipCellsAt(board, nrows, ncols, row, col), nrows, ncols)|;
            match PlacementOf(nrows, ncols, row, col)
            case Corner => flipped == 3
            case Edge => flipped == 4
            case Interior => flipped == 5
  {
    FlipCount(board, nrows, ncols, row, col);
  }

  // ---------------------------------------------------------------------
  // Clicks
  // ---------------------------------------------------------------------

  /** Clicking the cell rendered at (rnum, cnum) flips around (rnum, cnum). */
  lemma ClickFlipsAroundCell(board: Grid, nrows: nat, ncols: nat, rnum: nat, cnum: nat)
    requires Shaped(board, nrows, ncols)
    ensures FlipCellsAround(board, nrows, ncols, CoordKey.FormatKey(rnum, cnum))
         == FlipCellsAt(board, nrows, ncols, rnum, cnum)
  {
    CoordKey.KeyRoundTrip(rnum, cnum);
  }

  /** On a dark 3 by 3 board a click on the centre lights the centre cross and
      leaves the corners dark; a second click there makes the board dark again. */
  lemma CentreClickOnDarkBoard()
    ensures var dark := [[false, false, false], [false, false, false], [false, false, false]];
            var once := FlipCellsAt(dark, 3, 3, 1, 1);
            && once == [[false, true, false], [true, true, true], [false, true, false]]
            && !AllUnlit(once)
            && FlipCellsAt(once, 3, 3, 1, 1) == dark
  {
    var dark := [[false, false, false], [false, false, false], [false, false, false]];
    var expected := [[false, true, false], [true, true, true], [false, true, false]];
    var once := FlipCellsAt(dark, 3, 3, 1, 1);
    SameCells(once, expected, 3, 3);
    assert once[1][1];
    FlipTwiceRestores(dark, 3, 3, 1, 1);
  }
}
