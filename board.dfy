/** The Lights Out board component: its properties (nrows, ncols and
    chanceLightStartsOn), its state (the grid and the hasWon flag), board creation
    from a sample source, and the flip of a cell and its neighbours. */
module LightsOut {
  import opened Grid
  import Coord

  /** y * ncols + x, the row-major position among the samples createBoard draws of
      the one that decides cell (y, x), is one of the nrows * ncols positions. */
  lemma RowMajorBound(nrows: nat, ncols: nat, y: nat, x: nat)
    requires y < nrows && x < ncols
    ensures y * ncols + x < nrows * ncols
  {
    calc {
      y * ncols + x;
    <
      y * ncols + ncols;
    ==
      (y + 1) * ncols;
    <= { MulMonotone(y + 1, nrows, ncols); }
      nrows * ncols;
    }
  }

  lemma {:induction false} MulMonotone(a: nat, b: nat, c: nat)
    requires a <= b
    ensures a * c <= b * c
    decreases b - a
  {
    if a < b {
      MulMonotone(a + 1, b, c);
    }
  }

  /** The position of the sample that decides cell (y, x); it always names one of the
      nrows * ncols samples drawn. */
  function SampleIndex(nrows: nat, ncols: nat, y: nat, x: nat): (k: nat)
    requires y < nrows && x < ncols
    ensures k < nrows * ncols
  {
    RowMajorBound(nrows, ncols, y, x);
    y * ncols + x
  }

  /** Row-major positions grow with the row. */
  lemma RowMajorOrder(ncols: nat, y: nat, x: nat, y': nat, x': nat)
    requires x < ncols
    ensures y < y' ==> y * ncols + x < y' * ncols + x'
  {
    if y < y' {
      calc {
        y * ncols + x;
      <
        (y + 1) * ncols;
      <= { MulMonotone(y + 1, y', ncols); }
        y' * ncols + x';
      }
    }
  }

  /** Distinct cells are decided by distinct samples. */
  lemma SampleIndexInjective(nrows: nat, ncols: nat, y: nat, x: nat, y': nat, x': nat)
    requires y < nrows && x < ncols && y' < nrows && x' < ncols
    requires SampleIndex(nrows, ncols, y, x) == SampleIndex(nrows, ncols, y', x')
    ensures y == y' && x == x'
  {
    RowMajorOrder(ncols, y, x, y', x');
    RowMajorOrder(ncols, y', x', y, x);
  }

  /** g has the board's shape and cell (y, x) is lit exactly when the sample drawn
      for it, in row-major order, is below chance. */
  predicate DrawnFrom(g: Grid, nrows: nat, ncols: nat, samples: seq<real>, chance: real)
    requires |samples| == nrows * ncols
  {
    IsShape(g, nrows, ncols) &&
    forall y, x :: 0 <= y < nrows && 0 <= x < ncols ==>
      g[y][x] == (samples[SampleIndex(nrows, ncols, y, x)] < chance)
  }

  /** The samples fix the board: two boards drawn from the same samples are equal. */
  lemma DrawnFromUnique(g: Grid, h: Grid, nrows: nat, ncols: nat, samples: seq<real>, chance: real)
    requires |samples| == nrows * ncols
    requires DrawnFrom(g, nrows, ncols, samples, chance) && DrawnFrom(h, nrows, ncols, samples, chance)
    ensures g == h
  {
    forall y | 0 <= y < nrows
      ensures g[y] == h[y]
    {
      assert forall x :: 0 <= x < ncols ==> g[y][x] == h[y][x];
    }
  }

  /** With a chance of zero (or less) and samples that, like Math.random()'s, are never
      negative, no cell starts lit. */
  lemma ZeroChanceAllOff(g: Grid, nrows: nat, ncols: nat, samples: seq<real>, chance: real)
    requires |samples| == nrows * ncols
    requires forall k :: 0 <= k < |samples| ==> 0.0 <= samples[k]
    requires chance <= 0.0
    requires DrawnFrom(g, nrows, ncols, samples, chance)
    ensures AllOff(g)
  {
  }

  /** With a chance above every sample, as with a chance of one and samples below one,
      every cell starts lit. */
  lemma FullChanceAllLit(g: Grid, nrows: nat, ncols: nat, samples: seq<real>, chance: real)
    requires |samples| == nrows * ncols
    requires forall k :: 0 <= k < |samples| ==> samples[k] < chance
    requires DrawnFrom(g, nrows, ncols, samples, chance)
    ensures forall y, x :: 0 <= y < nrows && 0 <= x < ncols ==> g[y][x]
  {
  }

  class Board {
    const nrows: nat
    const ncols: nat
    const chanceLightStartsOn: real

    var board: Grid
    var hasWon: bool

    /** The grid always has the board's dimensions. */
    ghost predicate Valid()
      reads this
    {
      IsShape(board, nrows, ncols)
    }

    /** The component's constructor: the grid comes from createBoard and hasWon starts
        false, whatever the grid drawn. */
    constructor (nrows: nat, ncols: nat, chanceLightStartsOn: real, samples: seq<real>)
      requires |samples| == nrows * ncols
      ensures this.nrows == nrows && this.ncols == ncols
      ensures this.chanceLightStartsOn == chanceLightStartsOn
      ensures Valid()
      ensures DrawnFrom(board, nrows, ncols, samples, chanceLightStartsOn)
      ensures !hasWon
    {
      this.nrows := nrows;
      this.ncols := ncols;
      this.chanceLightStartsOn := chanceLightStartsOn;
      hasWon := false;
      board := [];
      new;
      board := CreateBoard(samples);
    }

    /** createBoard: nrows rows pushed in order, each of ncols cells pushed in order,
        each cell lit when the next sample drawn is below chanceLightStartsOn. The
        samples stand for the successive values of Math.random(). */
    method CreateBoard(samples: seq<real>) returns (grid: Grid)
      requires |samples| == nrows * ncols
      ensures DrawnFrom(grid, nrows, ncols, samples, chanceLightStartsOn)
    {
      grid := [];
      var drawn := 0;
      for y := 0 to nrows
        invariant drawn == y * ncols
        invariant |grid| == y
        invariant forall i :: 0 <= i < y ==> |grid[i]| == ncols
        invariant forall i, j :: 0 <= i < y && 0 <= j < ncols ==>
                    grid[i][j] == (samples[SampleIndex(nrows, ncols, i, j)] < chanceLightStartsOn)
      {
        var row := [];
        for x := 0 to ncols
          invariant drawn == y * ncols + x
          invariant |row| == x
          invariant forall j :: 0 <= j < x ==>
                      row[j] == (samples[SampleIndex(nrows, ncols, y, j)] < chanceLightStartsOn)
        {
          RowMajorBound(nrows, ncols, y, x);
          row := row + [samples[drawn] < chanceLightStartsOn];
          drawn := drawn + 1;
        }
        grid := grid + [row];
      }
    }

    /** The inner flipCell: negate cell (y, x) if it is on the board. */
    method FlipCell(y: int, x: int)
      requires Valid()
      modifies this`board
      ensures Valid()
      ensures board == Toggled(old(board), nrows, ncols, y, x)
    {
      if x >= 0 && x < ncols && y >= 0 && y < nrows {
        board := board[y := board[y][x := !board[y][x]]];
      }
    }

    /** flipCellsAround on the parsed coordinate (y, x): the cell and its four
        orthogonal neighbours are negated where they lie on the board, every other cell
        keeps its value, and hasWon is recomputed from the new grid. */
    method FlipCellsAround(y: int, x: int)
      requires Valid()
      modifies this`board, this`hasWon
      ensures Valid()
      ensures board == FlippedAround(old(board), nrows, ncols, y, x)
      // FlippedAround's cell-by-cell contract, restated here for callers of the method
      ensures forall i, j :: 0 <= i < nrows && 0 <= j < ncols ==>
                board[i][j] == (old(board)[i][j] != (InBounds(nrows, ncols, i, j) && WithinOne(y, x, i, j)))
      ensures hasWon <==> forall i, j :: 0 <= i < nrows && 0 <= j < ncols ==> !board[i][j]
    {
      FlipCell(y, x);
      FlipCell(y, x - 1);
      FlipCell(y, x + 1);
      FlipCell(y - 1, x);
      FlipCell(y + 1, x);
      hasWon := AllOff(board);
    }

    /** flipCellsAround as the rendered cells call it, with the cell's key. */
    method FlipCellsAroundKey(coord: string)
      requires Valid()
      requires Coord.Parse(coord).Some?
      modifies this`board, this`hasWon
      ensures Valid()
      ensures board == FlippedAround(old(board), nrows, ncols,
                                     Coord.Parse(coord).value.0, Coord.Parse(coord).value.1)
      ensures hasWon == AllOff(board)
    {
      var yx := Coord.Parse(coord).value;
      FlipCellsAround(yx.0, yx.1);
    }
  }

  /** A game as the presentation layer plays it: a 3-by-3 board created with a chance
      of zero, so that it starts all off while hasWon is still false, and its centre
      clicked twice through the rendered key. */
  method CentreTwice()
  {
    var samples := seq(9, _ => 0.5);
    var b := new Board(3, 3, 0.0, samples);
    ZeroChanceAllOff(b.board, 3, 3, samples, 0.0);
    assert AllOff(b.board) && !b.hasWon;
    var start := b.board;

    Coord.ParseFormat(1, 1);
    b.FlipCellsAroundKey(Coord.Format(1, 1));
    assert b.board[1][1] && b.board[0][1] && b.board[2][1] && b.board[1][0] && b.board[1][2];
    assert !b.board[0][0] && !b.board[0][2] && !b.board[2][0] && !b.board[2][2];
    assert !b.hasWon;

    b.FlipCellsAroundKey(Coord.Format(1, 1));
    FlipTwice(start, 3, 3, 1, 1);
    assert b.board == start && b.hasWon;
  }
}
