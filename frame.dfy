/**
 * The frame `Board::write` and `Selector::write` emit (src/board.rs), as
 * the sequence of strings passed to the writer, one element per
 * `writer.write` call. Writes are taken to succeed.
 */
module Frame {
  import opened Pieces
  import opened Grid

  /** The marker opened before the current player's glyph; its colour escape and angle quote are kept as an opaque string. */
  const SelectorOpen: string := "\U{1B}[38;2;65;72;104m\U{2039}\U{1B}[m("
  /** The marker closed after the current player's glyph. */
  const SelectorClose: string := ")\U{1B}[38;2;65;72;104m\U{203A}\U{1B}[m"
  /** Padding for a column the selector is not on. */
  const SelectorBlank: string := "    "
  const LineEnd: string := "\n"
  const CellOpen: string := "| "
  const CellClose: string := " "
  const RowEnd: string := "|\n"
  const Rule: string := "+---"
  const Corner: string := "+"

  /** The writes for selector columns `0 .. n - 1`. */
  function SelectorSegments(pos: nat, n: nat, glyph: string): seq<string> {
    if n == 0 then []
    else SelectorSegments(pos, n - 1, glyph)
         + (if n - 1 == pos then [SelectorOpen, glyph, SelectorClose] else [SelectorBlank])
  }

  /** The selector line: columns `0 ..= max`, then a line break. */
  function SelectorLine(pos: nat, max: nat, glyph: string): seq<string> {
    SelectorSegments(pos, max + 1, glyph) + [LineEnd]
  }

  /** The writes for the cells of one row, in column order. */
  function RowWrites(row: seq<Cell>, def: PieceDef): seq<string> {
    if row == [] then []
    else RowWrites(row[..|row| - 1], def) + [CellOpen, CellGlyph(row[|row| - 1], def), CellClose]
  }

  /** The writes for the rows of a grid, top row first. */
  function GridWrites(rows: Cells, def: PieceDef): seq<string> {
    if rows == [] then []
    else GridWrites(rows[..|rows| - 1], def) + RowWrites(rows[|rows| - 1], def) + [RowEnd]
  }

  /** `n` horizontal rules. */
  function Rules(n: nat): seq<string> {
    if n == 0 then [] else Rules(n - 1) + [Rule]
  }

  /** The bottom border of a grid `w` cells wide. */
  function BottomWrites(w: nat): seq<string> {
    Rules(w) + [Corner]
  }

  /** The whole frame: selector line, grid rows, bottom border `w` cells wide. */
  function FrameWrites(pos: nat, max: nat, glyph: string, rows: Cells, w: nat, def: PieceDef): seq<string> {
    SelectorLine(pos, max, glyph) + GridWrites(rows, def) + BottomWrites(w)
  }

  /**
   * Selector segments: blanks, except that column `pos` (when it is one of
   * the `n`) is drawn as open marker, glyph, close marker.
   */
  lemma {:induction false} SelectorSegmentsLayout(pos: nat, n: nat, glyph: string)
    ensures var s := SelectorSegments(pos, n, glyph);
      && |s| == (if pos < n then n + 2 else n)
      && (forall j :: 0 <= j < n && j < pos ==> s[j] == SelectorBlank)
      && (pos < n ==> s[pos] == SelectorOpen && s[pos + 1] == glyph && s[pos + 2] == SelectorClose)
      && (forall j :: pos + 2 < j < n + 2 ==> s[j] == SelectorBlank)
  {
    if n > 0 {
      SelectorSegmentsLayout(pos, n - 1, glyph);
    }
  }

  /**
   * The selector line has one segment per column `0 ..= max`: the column
   * at `pos` carries the glyph between the markers, every other one is
   * blank padding, and the line ends with a line break. A `pos` past `max`
   * draws no marker at all.
   */
  lemma {:induction false} SelectorLineLayout(pos: nat, max: nat, glyph: string)
    ensures var s := SelectorLine(pos, max, glyph);
      && |s| == (if pos <= max then max + 4 else max + 2)
      && s[|s| - 1] == LineEnd
      && (forall j :: 0 <= j <= max && j < pos ==> s[j] == SelectorBlank)
      && (pos <= max ==> s[pos] == SelectorOpen && s[pos + 1] == glyph && s[pos + 2] == SelectorClose)
      && (forall j :: pos + 2 < j <= max + 2 ==> s[j] == SelectorBlank)
  {
    SelectorSegmentsLayout(pos, max + 1, glyph);
  }

  /** The `k`-th write of a row: `"| "`, the cell's glyph, `" "`, repeating. */
  function RowWriteAt(row: seq<Cell>, k: nat, def: PieceDef): string
    requires k / 3 < |row|
  {
    if k % 3 == 0 then CellOpen
    else if k % 3 == 1 then CellGlyph(row[k / 3], def)
    else CellClose
  }

  /** A row is one triple `"| "`, glyph of that cell, `" "` per cell, in column order. */
  lemma {:induction false} RowLayout(row: seq<Cell>, def: PieceDef)
    ensures var r := RowWrites(row, def);
      && |r| == 3 * |row|
      && forall k :: 0 <= k < |r| ==> k / 3 < |row| && r[k] == RowWriteAt(row, k, def)
  {
    if row != [] {
      var n := |row|;
      var init := row[..n - 1];
      RowLayout(init, def);
      var r := RowWrites(row, def);
      forall k | 0 <= k < |r|
        ensures k / 3 < n && r[k] == RowWriteAt(row, k, def)
      {
        if k >= 3 * (n - 1) {
          assert k / 3 == n - 1 && k % 3 == k - 3 * (n - 1);
        } else {
          assert r[k] == RowWrites(init, def)[k] == RowWriteAt(init, k, def);
        }
      }
    }
  }

  /**
   * The grid part of the frame is one line per row, top row first: line
   * `i` follows the writes for the rows above it and is the writes of
   * row `i` followed by `"|\n"`.
   */
  lemma GridLayout(rows: Cells, i: nat, def: PieceDef)
    requires i < |rows|
    ensures var g, lo := GridWrites(rows, def), |GridWrites(rows[..i], def)|;
      var hi := lo + 3 * |rows[i]| + 1;
      hi <= |g| && g[lo .. hi] == RowWrites(rows[i], def) + [RowEnd]
  {
    var g := GridWrites(rows, def);
    var before, upTo := GridWrites(rows[..i], def), GridWrites(rows[..i + 1], def);
    var line := RowWrites(rows[i], def) + [RowEnd];
    RowLayout(rows[i], def);
    GridPrefix(rows, i + 1, def);
    assert rows[..i + 1][..i] == rows[..i];
    assert upTo == before + line;
    assert g[|before| .. |upTo|] == upTo[|before| ..] == line;
  }

  /** A grid of rows `w` cells long takes `3 * w + 1` writes per row. */
  lemma {:induction false} GridLength(rows: Cells, w: nat, def: PieceDef)
    requires forall i :: 0 <= i < |rows| ==> |rows[i]| == w
    ensures |GridWrites(rows, def)| == |rows| * (3 * w + 1)
  {
    if rows != [] {
      var n := |rows|;
      GridLength(rows[..n - 1], w, def);
      RowLayout(rows[n - 1], def);
    }
  }

  /** The writes for the first `i` rows start the writes for the whole grid. */
  lemma {:induction false} GridPrefix(rows: Cells, i: nat, def: PieceDef)
    requires i <= |rows|
    ensures var p := GridWrites(rows[..i], def);
      |p| <= |GridWrites(rows, def)| && GridWrites(rows, def)[..|p|] == p
    decreases |rows|
  {
    if i < |rows| {
      var init := rows[..|rows| - 1];
      assert init[..i] == rows[..i];
      GridPrefix(init, i, def);
    } else {
      assert rows[..i] == rows;
    }
  }

  /** The bottom border is `w` rules and a closing corner. */
  lemma BottomLayout(w: nat)
    ensures var b := BottomWrites(w);
      && |b| == w + 1 && b[w] == Corner
      && forall k :: 0 <= k < w ==> b[k] == Rule
  {
    RulesLayout(w);
  }

  lemma {:induction false} RulesLayout(n: nat)
    ensures |Rules(n)| == n && forall k :: 0 <= k < n ==> Rules(n)[k] == Rule
  {
    if n > 0 {
      RulesLayout(n - 1);
    }
  }
}
