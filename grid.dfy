/** The Lights Out grid as a value: rows of cells, true for lit and false for off,
    the bounds test and the flip of one cell, the flip of a cell together with its
    four orthogonal neighbours, and the win test. */
module Grid {

  type Grid = seq<seq<bool>>

  /** g has nrows rows of ncols cells each. */
  predicate IsShape(g: Grid, nrows: int, ncols: int) {
    |g| == nrows && forall i :: 0 <= i < |g| ==> |g[i]| == ncols
  }

  /** (y, x) names a cell of an nrows-by-ncols board. */
  predicate InBounds(nrows: int, ncols: int, y: int, x: int) {
    x >= 0 && x < ncols && y >= 0 && y < nrows
  }

  function Abs(n: int): nat {
    if n < 0 then -n else n
  }

  /** (i, j) is (y, x) itself or one of its four orthogonal neighbours: the cells
      at Manhattan distance at most one. */
  predicate WithinOne(y: int, x: int, i: int, j: int) {
    Abs(i - y) + Abs(j - x) <= 1
  }

  /** `row.every(cell => !cell)`. */
  function RowAllOff(row: seq<bool>): (r: bool)
    ensures r <==> forall j :: 0 <= j < |row| ==> !row[j]
  {
    |row| == 0 || (!row[0] && RowAllOff(row[1..]))
  }

  /** `board.every(row => row.every(cell => !cell))`: the win test. */
  function AllOff(g: Grid): (r: bool)
    ensures r <==> forall i, j :: 0 <= i < |g| && 0 <= j < |g[i]| ==> !g[i][j]
  {
    |g| == 0 || (RowAllOff(g[0]) && AllOff(g[1..]))
  }

  /** The inner flipCell: negate cell (y, x) when it lies on the board, and leave the
      grid as it is otherwise. */
  function Toggled(g: Grid, nrows: int, ncols: int, y: int, x: int): (r: Grid)
    requires IsShape(g, nrows, ncols)
    ensures IsShape(r, nrows, ncols)
    ensures forall i, j :: 0 <= i < nrows && 0 <= j < ncols ==>
              r[i][j] == (g[i][j] != (i == y && j == x))
    ensures !InBounds(nrows, ncols, y, x) ==> r == g
  {
    if InBounds(nrows, ncols, y, x) then g[y := g[y][x := !g[y][x]]] else g
  }

  /** flipCellsAround's five calls of flipCell, in the order the source makes them:
      the cell, left, right, the row above, the row below. Every cell of the board
      within distance one of (y, x) is negated and every other cell keeps its value. */
  function FlippedAround(g: Grid, nrows: int, ncols: int, y: int, x: int): (r: Grid)
    requires IsShape(g, nrows, ncols)
    ensures IsShape(r, nrows, ncols)
    ensures forall i, j :: 0 <= i < nrows && 0 <= j < ncols ==>
              r[i][j] == (g[i][j] != WithinOne(y, x, i, j))
  {
    var g1 := Toggled(g, nrows, ncols, y, x);
    var g2 := Toggled(g1, nrows, ncols, y, x - 1);
    var g3 := Toggled(g2, nrows, ncols, y, x + 1);
    var g4 := Toggled(g3, nrows, ncols, y - 1, x);
    Toggled(g4, nrows, ncols, y + 1, x)
  }

  /** The cells in which g and h differ. */
  function Changed(g: Grid, h: Grid, nrows: int, ncols: int): set<(int, int)>
    requires IsShape(g, nrows, ncols) && IsShape(h, nrows, ncols)
  {
    set i, j | 0 <= i < nrows && 0 <= j < ncols && g[i][j] != h[i][j] :: (i, j)
  }

  /** {c} when c lies on the board, {} otherwise. */
  function KeepOnBoard(nrows: int, ncols: int, c: (int, int)): set<(int, int)> {
    if InBounds(nrows, ncols, c.0, c.1) then {c} else {}
  }

  /** The five candidates of a flip around (y, x), clipped to the board. */
  function Clipped(nrows: int, ncols: int, y: int, x: int): set<(int, int)> {
    KeepOnBoard(nrows, ncols, (y, x)) + KeepOnBoard(nrows, ncols, (y, x - 1)) +
    KeepOnBoard(nrows, ncols, (y, x + 1)) + KeepOnBoard(nrows, ncols, (y - 1, x)) +
    KeepOnBoard(nrows, ncols, (y + 1, x))
  }

  function Count(b: bool): nat {
    if b then 1 else 0
  }

  /** Flipping around the same cell twice gives back the grid: each of the five
      distinct candidates is negated exactly once per flip. */
  lemma FlipTwice(g: Grid, nrows: int, ncols: int, y: int, x: int)
    requires IsShape(g, nrows, ncols)
    ensures FlippedAround(FlippedAround(g, nrows, ncols, y, x), nrows, ncols, y, x) == g
  {
    var h := FlippedAround(FlippedAround(g, nrows, ncols, y, x), nrows, ncols, y, x);
    forall i | 0 <= i < nrows
      ensures h[i] == g[i]
    {
      assert forall j :: 0 <= j < ncols ==> h[i][j] == g[i][j];
    }
  }

  /** The cells a flip around (y, x) changes are exactly its candidates that lie on
      the board. */
  lemma FlipChangesExactlyClipped(g: Grid, nrows: int, ncols: int, y: int, x: int)
    requires IsShape(g, nrows, ncols)
    ensures Changed(g, FlippedAround(g, nrows, ncols, y, x), nrows, ncols) == Clipped(nrows, ncols, y, x)
  {
  }

  /** The clipped candidates are exactly the cells of the board within distance one
      of (y, x). */
  lemma ClippedIsNeighbourhood(nrows: int, ncols: int, y: int, x: int, i: int, j: int)
    ensures (i, j) in Clipped(nrows, ncols, y, x) <==> InBounds(nrows, ncols, i, j) && WithinOne(y, x, i, j)
  {
  }

  /** A flip leaves the grid as it was exactly when none of its five candidates lies
      on the board, as for a coordinate far outside it. */
  lemma FlipIsIdentityIff(g: Grid, nrows: int, ncols: int, y: int, x: int)
    requires IsShape(g, nrows, ncols)
    ensures FlippedAround(g, nrows, ncols, y, x) == g <==> Clipped(nrows, ncols, y, x) == {}
  {
  }

  /** Clipping counts: a flip around a cell of the board changes five cells less one
      for every border of the board the cell lies on, that is 5 in the interior, 4 on
      an edge and 3 in a corner (fewer on a board one row or one column wide). */
  lemma ClippedCount(nrows: int, ncols: int, y: int, x: int)
    requires InBounds(nrows, ncols, y, x)
    ensures |Clipped(nrows, ncols, y, x)| ==
            5 - Count(y == 0) - Count(y == nrows - 1) - Count(x == 0) - Count(x == ncols - 1)
  {
  }

  /** Toggling the corner (0, 0) of a board at least two cells each way flips exactly
      (0, 0), (0, 1) and (1, 0). */
  lemma CornerFlip(g: Grid, nrows: int, ncols: int)
    requires IsShape(g, nrows, ncols) && nrows >= 2 && ncols >= 2
    ensures Changed(g, FlippedAround(g, nrows, ncols, 0, 0), nrows, ncols) == {(0, 0), (0, 1), (1, 0)}
  {
  }
}
