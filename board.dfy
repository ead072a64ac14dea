/**
 * The board and its column selector (src/board.rs): a grid of cells that
 * only ever gains pieces, dropped under gravity into the selected column,
 * and the frame that draws it.
 */
module Boards {
  import opened Pieces
  import opened Grid
  import opened Frame

  /** Largest side of a board; both sides are clamped into `[1, MaxSide]`. */
  const MaxSide: nat := 20

  /** `pos.max(1) - 1`: one column to the left, stopping at column 0. */
  function ShiftLeft(pos: nat): (r: nat)
    ensures pos > 0 ==> r == pos - 1
    ensures pos == 0 ==> r == 0
  {
    (if pos < 1 then 1 else pos) - 1
  }

  /**
   * `pos.min(max - 1) + 1`: one column to the right, stopping at `max`.
   * `max - 1` underflows when `max` is 0.
   */
  function ShiftRight(pos: nat, max: nat): (r: nat)
    requires max >= 1
    ensures 1 <= r <= max
    ensures pos < max ==> r == pos + 1
    ensures pos >= max ==> r == max
  {
    (if pos < max - 1 then pos else max - 1) + 1
  }

  /** The position after `n` shifts to the left. */
  function ShiftLeftTimes(pos: nat, n: nat): nat
    decreases n
  {
    if n == 0 then pos else ShiftLeftTimes(ShiftLeft(pos), n - 1)
  }

  /** The position after `n` shifts to the right. */
  function ShiftRightTimes(pos: nat, max: nat, n: nat): nat
    requires max >= 1
    decreases n
  {
    if n == 0 then pos else ShiftRightTimes(ShiftRight(pos, max), max, n - 1)
  }

  /** Shifting left walks down to column 0 and then stays there. */
  lemma {:induction false} ShiftLeftConverges(pos: nat, n: nat)
    ensures ShiftLeftTimes(pos, n) == if n >= pos then 0 else pos - n
    decreases n
  {
    if n > 0 {
      ShiftLeftConverges(ShiftLeft(pos), n - 1);
    }
  }

  /** Shifting right from a column in range walks up to `max` and then stays there. */
  lemma {:induction false} ShiftRightConverges(pos: nat, max: nat, n: nat)
    requires 1 <= max && pos <= max
    ensures ShiftRightTimes(pos, max, n) == if pos + n >= max then max else pos + n
    decreases n
  {
    if n > 0 {
      ShiftRightConverges(ShiftRight(pos, max), max, n - 1);
    }
  }

  /** The selector row above the board: the highlighted column and the last column it may reach. */
  class Selector {
    var pos: nat
    const max: nat

    constructor (pos: nat, max: nat)
      ensures this.pos == pos && this.max == max
    {
      this.pos := pos;
      this.max := max;
    }

    method Shl()
      modifies this
      ensures pos == ShiftLeft(old(pos))
    {
      pos := (if pos < 1 then 1 else pos) - 1;
    }

    method Shr()
      requires max >= 1
      modifies this
      ensures pos == ShiftRight(old(pos), max)
    {
      pos := (if pos < max - 1 then pos else max - 1) + 1;
    }

    /** Appends the selector line for `player` to what the writer holds. */
    method Write(writer: seq<string>, player: Piece, def: PieceDef) returns (written: seq<string>)
      ensures written == writer + SelectorLine(pos, max, PieceGlyph(player, def))
    {
      written := writer;
      for j := 0 to max + 1
        invariant written == writer + SelectorSegments(pos, j, PieceGlyph(player, def))
      {
        if j == pos {
          written := written + [SelectorOpen];
          written := written + [PieceGlyph(player, def)];
          written := written + [SelectorClose];
        } else {
          written := written + [SelectorBlank];
        }
      }
      written := written + [LineEnd];
    }
  }

  /** A board of `width` columns and `height` rows with its selector. */
  class Board {
    const width: nat
    const height: nat
    var cells: Cells
    const selector: Selector

    /**
     * Clamped sides, a `height` by `width` grid whose columns obey gravity,
     * and a selector over columns `0 ..= width - 1` that stays within them.
     * The one exception is the start state of a one-column board, which
     * `Board::new` gives `pos == 1` although `max == 0`.
     */
    ghost predicate Valid()
      reads this, selector
    {
      && 1 <= width <= MaxSide && 1 <= height <= MaxSide
      && Rectangular(cells, width, height)
      && AllSettled(cells, width)
      && selector.max == width - 1
      && (selector.pos <= selector.max || (width == 1 && selector.pos == 1))
    }

    /** On a board of two or more columns the selector always names a column of the grid. */
    lemma SelectorInBounds()
      requires Valid() && width >= 2
      ensures selector.pos <= selector.max < width
      ensures HasColumn(cells, selector.pos)
    {
    }

    /**
     * `Board::new` with the grid and selector built from the clamped sides
     * (the source builds them from the arguments as given, see NewAsWritten).
     */
    constructor (width: nat, height: nat)
      ensures Valid()
      ensures this.width == Clamp(width, 1, MaxSide) && this.height == Clamp(height, 1, MaxSide)
      ensures cells == EmptyGrid(this.width, this.height)
      ensures fresh(selector) && selector.pos == 1 && selector.max == this.width - 1
    {
      var w, h := Clamp(width, 1, MaxSide), Clamp(height, 1, MaxSide);
      this.width := w;
      this.height := h;
      cells := EmptyGrid(w, h);
      selector := new Selector(1, w - 1);
      EmptySettled(w, h);
    }

    /** Appends the whole frame (selector line, rows, bottom border) to what the writer holds. */
    method Write(writer: seq<string>, player: Piece, def: PieceDef) returns (written: seq<string>)
      requires Valid()
      ensures written
        == writer + FrameWrites(selector.pos, selector.max, PieceGlyph(player, def), cells, width, def)
    {
      written := selector.Write(writer, player, def);
      written := WriteGrid(written, cells, width, def);
      written := WriteBottom(written, width);
    }

    /**
     * Drops `piece` into the selected column: scans down from the top row
     * while cells are empty, then fills the cell above the first piece met,
     * or the bottom cell of an empty column. A full column is excluded: the
     * row index computed for it underflows.
     */
    method DropPiece(piece: Piece)
      requires Valid()
      requires selector.pos < width && cells[0][selector.pos].IsEmpty()
      modifies this
      ensures Valid()
      ensures HasColumn(old(cells), selector.pos)
      ensures cells == Place(old(cells), selector.pos, piece)
      ensures cells[height - 1 - Occupied(Column(old(cells), selector.pos))][selector.pos] == Cell(Some(piece))
    {
      var pos := selector.pos;
      var y := height;
      while y > 0 && cells[height - y][pos].IsEmpty()
        invariant 0 <= y <= height
        invariant forall i :: 0 <= i < height - y ==> cells[i][pos].IsEmpty()
      {
        y := y - 1;
      }
      assert FirstOccupied(Column(cells, pos)) == height - y;
      ghost var before := cells;
      cells := cells[height - y - 1 := cells[height - y - 1][pos := Cell(Some(piece))]];
      PlaceKeepsSettled(before, width, pos, piece);
      DropRowUnderGravity(before, pos);
    }

    method SelectorShl()
      requires Valid()
      modifies selector
      ensures Valid() && cells == old(cells)
      ensures selector.pos == ShiftLeft(old(selector.pos))
    {
      selector.Shl();
    }

    /** Needs a board at least two columns wide: `max - 1` underflows otherwise. */
    method SelectorShr()
      requires Valid() && selector.max >= 1
      modifies selector
      ensures Valid() && cells == old(cells)
      ensures selector.pos == ShiftRight(old(selector.pos), selector.max)
    {
      selector.Shr();
    }

    method SelectorReset()
      requires Valid()
      modifies selector
      ensures Valid() && cells == old(cells)
      ensures selector.pos == 0
    {
      selector.pos := 0;
    }

    function Width(): (w: nat)
      requires Valid()
      reads this, selector
      ensures 1 <= w <= MaxSide && w == width
    {
      width
    }

    function Height(): (h: nat)
      requires Valid()
      reads this, selector
      ensures 1 <= h <= MaxSide && h == height && h == |cells|
    {
      height
    }

    /**
     * How many lines `reset_board` moves the cursor up to redraw the board:
     * the stored height plus 3. This is not the size of what `Write` emits:
     * the selector line, one line per row and the unterminated bottom border.
     */
    function GetEntireHeight(): (n: nat)
      requires Valid()
      reads this, selector
      ensures n == Height() + 3 && 4 <= n <= MaxSide + 3
    {
      height + 3
    }
  }

  /**
   * The inner loop of `Board::write`: `"| "`, the glyph and `" "` for each
   * of the `width` cells of one row.
   */
  method WriteRow(writer: seq<string>, row: seq<Cell>, width: nat, def: PieceDef) returns (written: seq<string>)
    requires width == |row|
    ensures written == writer + RowWrites(row, def)
  {
    written := writer;
    for j := 0 to width
      invariant written == writer + RowWrites(row[..j], def)
    {
      written := written + [CellOpen];
      written := written + [CellGlyph(row[j], def)];
      written := written + [CellClose];
      assert row[..j + 1][..j] == row[..j];
    }
    assert row[..width] == row;
  }

  /** The row loop of `Board::write`: each row's cells, then `"|\n"`, top row first. */
  method WriteGrid(writer: seq<string>, grid: Cells, width: nat, def: PieceDef) returns (written: seq<string>)
    requires Rectangular(grid, width, |grid|)
    ensures written == writer + GridWrites(grid, def)
  {
    written := writer;
    for i := 0 to |grid|
      invariant written == writer + GridWrites(grid[..i], def)
    {
      written := WriteRow(written, grid[i], width, def);
      written := written + [RowEnd];
      assert grid[..i + 1][..i] == grid[..i];
    }
    assert grid[..|grid|] == grid;
  }

  /** The bottom border of `Board::write`: `width` rules, then the corner. */
  method WriteBottom(writer: seq<string>, width: nat) returns (written: seq<string>)
    ensures written == writer + BottomWrites(width)
  {
    written := writer;
    for k := 0 to width
      invariant written == writer + Rules(k)
    {
      written := written + [Rule];
    }
    written := written + [Corner];
  }

  /** The fields `Board::new` produces, as the source computes them. */
  datatype Snapshot = Snapshot(width: nat, height: nat, cells: Cells, pos: nat, max: nat)

  /**
   * `Board::new` as written: the stored sides are clamped, but the grid
   * and the selector are built from the arguments as given. `width - 1`
   * underflows for a width of 0.
   */
  function NewAsWritten(width: nat, height: nat): (s: Snapshot)
    requires width >= 1
    ensures s.width == Clamp(width, 1, MaxSide) && s.height == Clamp(height, 1, MaxSide)
    ensures s.cells == EmptyGrid(width, height)
    ensures s.pos == 1 && s.max == width - 1
  {
    Snapshot(Clamp(width, 1, MaxSide), Clamp(height, 1, MaxSide), EmptyGrid(width, height), 1, width - 1)
  }

  /**
   * For sides already in `[1, 20]` the source's construction is consistent
   * and builds the same board as the corrected constructor.
   */
  lemma NewAsWrittenInRange(width: nat, height: nat)
    requires 1 <= width <= MaxSide && 1 <= height <= MaxSide
    ensures var s := NewAsWritten(width, height);
      && Rectangular(s.cells, s.width, s.height) && s.max == s.width - 1
      && s.cells == EmptyGrid(s.width, s.height) && AllSettled(s.cells, s.width)
  {
    EmptySettled(width, height);
  }

  /**
   * Outside `[1, 20]` it is not: a width of 25 stores 20 but builds rows of
   * 25 cells and a selector that walks to column 24, past the 20 columns
   * drawn; a height of 0 stores 1 but builds no row at all.
   */
  lemma NewAsWrittenMismatch()
    ensures var s := NewAsWritten(25, 6);
      && s.width == 20 && |s.cells| == 6 && |s.cells[0]| == 25
      && ShiftRightTimes(s.pos, s.max, 23) == 24
    ensures var t := NewAsWritten(7, 0);
      t.height == 1 && |t.cells| == 0
  {
    ShiftRightConverges(1, 24, 23);
  }

  /**
   * A one-column board starts with the selector on column 1, past its only
   * column: the selector line draws no marker, and a drop would index past
   * the end of a row. Moving the selector left or resetting it repairs this.
   */
  method OneColumnExample(glyph: string)
  {
    var b := new Board(1, 6);
    assert b.selector.pos == 1 && b.selector.max == 0;
    SelectorLineLayout(1, 0, glyph);
    assert SelectorLine(b.selector.pos, b.selector.max, glyph) == [SelectorBlank, LineEnd];
    b.SelectorShl();
    assert b.selector.pos == 0;
    b.DropPiece(Reg(P1));
    assert b.cells[5][0] == Cell(Some(Reg(P1)));
  }

  /**
   * The board `src/main.rs` creates: dropping two pieces into column 3 of
   * a 7 by 6 board stacks them on the bottom row.
   */
  method SevenBySixExample()
  {
    var b := new Board(7, 6);
    b.SelectorShr();
    b.SelectorShr();
    assert b.selector.pos == 3;
    b.DropPiece(Reg(P1));
    assert b.cells[5][3] == Cell(Some(Reg(P1)));
    b.DropPiece(Reg(P2));
    assert b.cells[5][3] == Cell(Some(Reg(P1)));
    assert b.cells[4][3] == Cell(Some(Reg(P2)));
    assert b.cells[3][3].IsEmpty() && b.cells[5][2].IsEmpty();
  }
}
