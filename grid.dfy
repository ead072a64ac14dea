/**
 * The board's cells as a value: construction, columns, gravity and the
 * drop target (src/board.rs, `Board::new` and `Board::drop_piece`).
 * Row 0 is the top row and row `height - 1` the bottom one.
 */
module Grid {
  import opened Pieces

  /** Rows of cells, top row first. */
  type Cells = seq<seq<Cell>>

  /** `cells` has `h` rows of `w` cells each. */
  ghost predicate Rectangular(cells: Cells, w: nat, h: nat) {
    |cells| == h && forall i :: 0 <= i < h ==> |cells[i]| == w
  }

  /** Every row has a cell in column `c`. */
  ghost predicate HasColumn(cells: Cells, c: nat) {
    forall i :: 0 <= i < |cells| ==> c < |cells[i]|
  }

  /** `x.clamp(lo, hi)`: the nearest value to `x` in `[lo, hi]`. */
  function Clamp(x: nat, lo: nat, hi: nat): (r: nat)
    requires lo <= hi
    ensures lo <= r <= hi
    ensures lo <= x <= hi ==> r == x
    ensures x < lo ==> r == lo
    ensures hi < x ==> r == hi
  {
    if x < lo then lo else if x > hi then hi else x
  }

  /** `vec![vec![Cell(None); w]; h]`. */
  function EmptyGrid(w: nat, h: nat): (g: Cells)
    ensures Rectangular(g, w, h)
    ensures forall i, j :: 0 <= i < h && 0 <= j < w ==> g[i][j].IsEmpty()
  {
    seq(h, _ => seq(w, _ => EmptyCell))
  }

  /** Column `c` of the grid, top cell first. */
  function Column(cells: Cells, c: nat): (col: seq<Cell>)
    requires HasColumn(cells, c)
    ensures |col| == |cells|
    ensures forall i :: 0 <= i < |cells| ==> col[i] == cells[i][c]
  {
    seq(|cells|, i requires 0 <= i < |cells| => cells[i][c])
  }

  /**
   * Index of the topmost occupied cell of a column, or its length when the
   * whole column is empty.
   */
  function FirstOccupied(col: seq<Cell>): (r: nat)
    ensures r <= |col|
    ensures forall i :: 0 <= i < r ==> col[i].IsEmpty()
    ensures r < |col| ==> !col[r].IsEmpty()
  {
    if col == [] then 0
    else if !col[0].IsEmpty() then 0
    else 1 + FirstOccupied(col[1..])
  }

  /** The number of pieces in a column. */
  function Occupied(col: seq<Cell>): (k: nat)
    ensures k <= |col|
  {
    if col == [] then 0
    else (if col[0].IsEmpty() then 0 else 1) + Occupied(col[1..])
  }

  /**
   * The gravity invariant of one column: below an occupied cell every cell
   * is occupied, so the pieces form one block resting on the bottom row.
   */
  ghost predicate Settled(col: seq<Cell>) {
    forall i, j :: 0 <= i <= j < |col| && !col[i].IsEmpty() ==> !col[j].IsEmpty()
  }

  /** Every column of the grid satisfies the gravity invariant. */
  ghost predicate AllSettled(cells: Cells, w: nat) {
    forall c :: 0 <= c < w ==> HasColumn(cells, c) && Settled(Column(cells, c))
  }

  /** A fresh grid holds no piece, so every column trivially obeys gravity. */
  lemma EmptySettled(w: nat, h: nat)
    ensures AllSettled(EmptyGrid(w, h), w)
  {
  }

  /** The row `drop_piece` writes to: just above the topmost piece, or the bottom row. */
  function DropRow(cells: Cells, c: nat): (r: nat)
    requires HasColumn(cells, c)
    requires |cells| > 0 && cells[0][c].IsEmpty()
    ensures r < |cells| && cells[r][c].IsEmpty()
    ensures forall i :: 0 <= i <= r ==> cells[i][c].IsEmpty()
    ensures r + 1 == |cells| || !cells[r + 1][c].IsEmpty()
  {
    FirstOccupied(Column(cells, c)) - 1
  }

  /**
   * The grid after dropping `piece` into column `c`: exactly one cell, the
   * one DropRow names, turns from empty to holding `piece`.
   */
  function Place(cells: Cells, c: nat, piece: Piece): (g: Cells)
    requires HasColumn(cells, c)
    requires |cells| > 0 && cells[0][c].IsEmpty()
    ensures |g| == |cells|
    ensures forall i :: 0 <= i < |cells| ==> |g[i]| == |cells[i]|
    ensures var r := DropRow(cells, c);
      && cells[r][c].IsEmpty()
      && g[r][c] == Cell(Some(piece))
      && forall i, j :: 0 <= i < |cells| && 0 <= j < |cells[i]| && (i, j) != (r, c) ==> g[i][j] == cells[i][j]
  {
    var r := DropRow(cells, c);
    cells[r := cells[r][c := Cell(Some(piece))]]
  }

  /** Pieces never move, change owner or disappear when another one is dropped. */
  lemma PlaceKeepsPieces(cells: Cells, c: nat, piece: Piece)
    requires HasColumn(cells, c)
    requires |cells| > 0 && cells[0][c].IsEmpty()
    ensures var g := Place(cells, c, piece);
      forall i, j :: 0 <= i < |cells| && 0 <= j < |cells[i]| && !cells[i][j].IsEmpty() ==> g[i][j] == cells[i][j]
    ensures Occupied(Column(Place(cells, c, piece), c)) == Occupied(Column(cells, c)) + 1
  {
    var g := Place(cells, c, piece);
    var r := DropRow(cells, c);
    var col, col' := Column(cells, c), Column(g, c);
    assert col' == col[r := Cell(Some(piece))];
    OccupiedUpdate(col, r, Cell(Some(piece)));
  }

  /** Filling one empty cell of a column adds one to its count. */
  lemma {:induction false} OccupiedUpdate(col: seq<Cell>, r: nat, x: Cell)
    requires r < |col| && col[r].IsEmpty() && !x.IsEmpty()
    ensures Occupied(col[r := x]) == Occupied(col) + 1
  {
    if r == 0 {
      assert col[r := x][1..] == col[1..];
    } else {
      assert col[r := x][1..] == col[1..][r - 1 := x];
      OccupiedUpdate(col[1..], r - 1, x);
    }
  }

  /** A settled column is a block of empty cells above a block of pieces. */
  lemma {:induction false} SettledShape(col: seq<Cell>)
    requires Settled(col)
    ensures FirstOccupied(col) + Occupied(col) == |col|
    ensures forall i :: FirstOccupied(col) <= i < |col| ==> !col[i].IsEmpty()
  {
    if col != [] {
      assert Settled(col[1..]) by {
        forall i, j | 0 <= i <= j < |col[1..]| && !col[1..][i].IsEmpty()
          ensures !col[1..][j].IsEmpty()
        {
          assert !col[i + 1].IsEmpty();
        }
      }
      SettledShape(col[1..]);
      if !col[0].IsEmpty() {
        assert forall i :: 0 <= i < |col| ==> !col[i].IsEmpty() by {
          forall i | 0 <= i < |col| ensures !col[i].IsEmpty() {
            assert !col[0].IsEmpty();
          }
        }
        assert FirstOccupied(col[1..]) == 0 by {
          if |col| > 1 { assert !col[1..][0].IsEmpty(); }
        }
      }
    }
  }

  /**
   * Under gravity, a column holding `k` pieces receives the next one at
   * row `height - 1 - k`.
   */
  lemma DropRowUnderGravity(cells: Cells, c: nat)
    requires HasColumn(cells, c)
    requires |cells| > 0 && cells[0][c].IsEmpty()
    requires Settled(Column(cells, c))
    ensures DropRow(cells, c) == |cells| - 1 - Occupied(Column(cells, c))
  {
    SettledShape(Column(cells, c));
  }

  /** Dropping a piece keeps every column settled. */
  lemma PlaceKeepsSettled(cells: Cells, w: nat, c: nat, piece: Piece)
    requires c < w && AllSettled(cells, w) && HasColumn(cells, c)
    requires |cells| > 0 && cells[0][c].IsEmpty()
    ensures AllSettled(Place(cells, c, piece), w)
  {
    var g := Place(cells, c, piece);
    var r := DropRow(cells, c);
    forall c' | 0 <= c' < w
      ensures HasColumn(g, c') && Settled(Column(g, c'))
    {
      var col, col' := Column(cells, c'), Column(g, c');
      if c' == c {
        SettledShape(col);
        forall i, j | 0 <= i <= j < |col'| && !col'[i].IsEmpty()
          ensures !col'[j].IsEmpty()
        {
          if j != r {
            assert col'[j] == col[j];
            if i != r {
              assert !col[i].IsEmpty();
            } else {
              assert r + 1 <= j;
            }
          }
        }
      } else {
        assert col' == col;
      }
    }
  }
}
