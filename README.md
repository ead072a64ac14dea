# Connect-Four board, modelled in Dafny

This project models the board of a terminal Connect-Four game: `src/board.rs` and the cell, player and glyph types in `src/piece.rs`.

A `Board` has a clamped width and height (each in `[1, 20]`). It holds a grid of cells, top row first, and a `Selector`. The selector is the highlighted column in the line above the grid. `drop_piece` drops a piece into the selected column. It scans down from the top row while the cells are empty. It then fills the cell just above the first piece it meets, or the bottom cell if the column is empty. The selector moves left and right with saturating arithmetic. `write` draws one frame in three parts: the selector line with the current player's glyph between two markers, one bordered line per row, and a bottom border. The glyph definition (`PieceDef`) maps player 1, player 2 and an empty cell to display strings.

Files and modules:

- `pieces.dfy`, module `Pieces`: `Player`, `Piece`, `Cell` and `PieceDef`, and the glyph a cell or piece is drawn with.
- `grid.dfy`, module `Grid`: the grid as a value.
  - Clamping and the empty grid.
  - Columns.
  - The gravity invariant (`Settled`: the pieces of a column form one block resting on the bottom row).
  - The drop target `DropRow` and the grid after a drop, `Place`.
- `frame.dfy`, module `Frame`: the writes one frame consists of, and lemmas about where each write sits.
- `board.dfy`, module `Boards`: the classes `Selector` and `Board`, whose methods update `pos` and `cells` in place and are proved against the functions above. It also holds `NewAsWritten`, the source's constructor as written (see Findings). `WriteGrid`, `WriteRow` and `WriteBottom` hold the row loop, the inner cell loop and the border loop of `Board::write`.

The writer is modelled as a `seq<string>` that only grows, with one element per `writer.write` call. A write method receives the writer's current contents and returns them with the frame appended.

Three failure cases of the source become preconditions:

- A drop into a full column: the row index `height - y - 1` underflows. A build with overflow checks panics on the subtraction. A build without them wraps it to a huge index, and the indexing then panics. So it panics either way.
- A drop with the selector past the last column: the index is out of bounds, which panics in every build.
- `shr` on a selector whose `max` is 0: `max - 1` underflows. This panics only in a build with overflow checks (Rust's debug profile). A release build wraps `max - 1` to `usize::MAX`, so `shr` adds 1 without bound; that behaviour is not modelled (see "## Left out").

The source returns no "column full" error; it panics. So no such error result is modelled.

## Model

| member | source | states |
|---|---|---|
| Pieces.Player.Next | src/piece.rs:39-44 | the next player is always the other player |
| Pieces.NextInvolutive | src/piece.rs:39-44 | passing the turn twice returns it to the same player, and the next player is never the current one |
| Pieces.Cell.IsEmpty | src/piece.rs:26-28 | a cell is empty exactly when it is `Cell(None)` |
| Pieces.NewPieceDef | src/piece.rs:82-84 | the three display strings are stored unchanged |
| Pieces.PieceGlyph | src/piece.rs:56-70 | `Piece::write`: a player-1 piece writes `p1`, a player-2 piece writes `p2` |
| Pieces.PieceGlyphChoice | src/piece.rs:61-66 | the two players' pieces are drawn differently whenever `p1 != p2` |
| Pieces.CellGlyph | src/piece.rs:10-24 | `Cell::write`: an empty cell writes `empty`, an occupied cell writes its piece's glyph; with distinct strings, a cell writes `empty` exactly when it is empty |
| Pieces.GlyphRoundTrip | src/piece.rs:15-21 | an empty cell is drawn with `empty` and an occupied cell with its piece's glyph; when the three strings are distinct, the glyph reads back as the same cell |
| Pieces.GlyphInjective | src/piece.rs:15-21 | when the three strings are distinct, different cells are drawn differently |
| Grid.Clamp | src/board.rs:17-18 | the result is in `[lo, hi]`: the value itself when in range, otherwise the nearer bound |
| Grid.EmptyGrid | src/board.rs:19 | `h` rows of `w` cells, every one empty |
| Grid.EmptySettled | src/board.rs:19 | the fresh all-empty grid obeys gravity in every column |
| Grid.FirstOccupied | src/board.rs:65-69 | the scan's stopping row: every cell above it is empty, and it is occupied unless it is past the bottom |
| Grid.DropRow | src/board.rs:71 | the target row is empty, as is every row above it, and it is either the bottom row or directly above an occupied cell |
| Grid.Place | src/board.rs:64-73 | exactly one cell changes: the empty cell at `DropRow` now holds the piece; the grid keeps its shape |
| Grid.PlaceKeepsPieces | src/board.rs:71 | a drop never moves, removes or changes the owner of a piece, and the column gains exactly one piece |
| Grid.DropRowUnderGravity | src/board.rs:65-71 | in a settled column holding `k` pieces, the new piece lands at row `height - 1 - k` |
| Grid.PlaceKeepsSettled | src/board.rs:64-73 | if every column is settled before a drop, every column is settled after it |
| Frame.SelectorLineLayout | src/board.rs:133-143 | the selector line has one segment per column `0 ..= max`; column `pos` is open marker, glyph, close marker, every other column is four spaces, and the line ends with `"\n"` |
| Frame.RowLayout | src/board.rs:38-42 | a row is, for each cell in column order, the bar opener `CellOpen`, the cell's glyph, `" "` |
| Frame.GridLayout | src/board.rs:37-45 | line `i` of the grid part comes right after the lines for the rows above it, and is row `i`'s cell writes followed by the bar and line break `RowEnd` |
| Frame.GridLength | src/board.rs:37-45 | a grid of rows `w` cells long takes `3 * w + 1` writes per row |
| Frame.GridPrefix | src/board.rs:37-45 | the writes for the first `i` rows are a prefix of the writes for the whole grid |
| Frame.BottomLayout | src/board.rs:48-51 | the bottom border is `width` copies of `"+---"` followed by `"+"` |
| Frame.RulesLayout | src/board.rs:48-50 | `n` rules are `n` copies of `"+---"` |
| Boards.ShiftLeft | src/board.rs:118-120 | moves one column left when `pos > 0`, and stays at 0 otherwise |
| Boards.ShiftRight | src/board.rs:123-125 | the result is in `[1, max]`: `pos + 1` below `max`, and `max` from `max` on |
| Boards.ShiftLeftConverges | src/board.rs:118-120 | `n` left shifts from `pos` reach `pos - n`, or stay at 0 once `n >= pos` |
| Boards.ShiftRightConverges | src/board.rs:123-125 | `n` right shifts from `pos <= max` reach `pos + n`, or stay at `max` once `pos + n >= max` |
| Boards.Selector.constructor | src/board.rs:113-115 | stores `pos` and `max` as given |
| Boards.Selector.Shl | src/board.rs:117-120 | `pos` becomes `ShiftLeft(old pos)` |
| Boards.Selector.Shr | src/board.rs:122-125 | `pos` becomes `ShiftRight(old pos, max)`; requires `max >= 1` |
| Boards.Selector.Write | src/board.rs:127-146 | appends exactly the selector line for `pos`, `max` and the player's glyph |
| Boards.Board.constructor | src/board.rs:15-22 | stores the clamped width and height; builds an all-empty grid of that size, which obeys gravity, and a selector at `pos == 1` with `max == width - 1` |
| Boards.Board.Write | src/board.rs:27-54 | appends exactly the selector line, then the rows, then the bottom border |
| Boards.WriteGrid | src/board.rs:37-45 | appends exactly the grid part: for each row, top row first, its cell writes and then the bar and line break `RowEnd` |
| Boards.WriteRow | src/board.rs:38-42 | appends exactly the writes of one row: the bar opener `CellOpen`, the cell's glyph, `" "` for each cell in column order |
| Boards.WriteBottom | src/board.rs:48-51 | appends exactly the bottom border for the given width |
| Boards.Board.SelectorInBounds | src/board.rs:111-112 | on a board of two or more columns, the board invariant keeps `pos <= max`, so the selector names a column of every row; the constructor and every board method preserve that invariant |
| Boards.Board.DropPiece | src/board.rs:63-74 | when the top cell of the selected column is empty: the new grid is `Place(old grid, pos, piece)`; gravity, part of the board invariant, is preserved; a column holding `k` pieces gets the piece at row `height - 1 - k`; the selector and the sizes are unchanged |
| Boards.Board.SelectorShl | src/board.rs:76-78 | the selector shifts left; the cells are unchanged |
| Boards.Board.SelectorShr | src/board.rs:80-82 | the selector shifts right; the cells are unchanged |
| Boards.Board.SelectorReset | src/board.rs:84-86 | the selector goes to column 0; the cells are unchanged |
| Boards.Board.Width | src/board.rs:88-90 | the stored width, in `[1, 20]` |
| Boards.Board.Height | src/board.rs:92-94 | the stored height, in `[1, 20]`, equal to the number of rows |
| Boards.Board.GetEntireHeight | src/board.rs:98-100 | the stored height plus 3: the number of lines `reset_board` (src/board.rs:58) moves the cursor up to redraw |
| Boards.NewAsWritten | src/board.rs:15-22 | the source's constructor: clamped sizes are stored, but the grid (every cell empty) and the selector are built from the arguments as given |
| Boards.NewAsWrittenInRange | src/board.rs:15-22 | for sides already in `[1, 20]`, the grid matches the stored sizes, is the all-empty grid the corrected constructor builds and obeys gravity, and `max == width - 1` |
| Boards.NewAsWrittenMismatch | src/board.rs:19-20 | outside that range it does not: width 25 stores 20 but builds 25-cell rows and a selector that reaches column 24; height 0 stores 1 but builds no rows |

## Findings

| source | as written | input that shows it | evidently intended | confidence | as-written member | corrected member |
|---|---|---|---|---|---|---|
| src/board.rs:19-20 | the grid and the selector are built from the unclamped `width` and `height`, while the clamped values are stored | `Board::new(25, 6)` stores width 20 but builds rows of 25 cells and a selector with `max == 24`, which `shr` can move past the 20 drawn columns. `Board::new(7, 0)` stores height 1 but builds no row, so `write` and `drop_piece` index row 0 of an empty grid. Shown by `Boards.NewAsWrittenMismatch`. | the doc comment says the sizes are clamped into `[1, 20]`: build the grid and the selector from the clamped sides | high; not executed | Boards.NewAsWritten | Boards.Board.constructor |

## Left out

- Boards.Board.constructor: builds the grid and the selector from the clamped sides. This is the corrected form of the Findings row. The source's own behaviour is `Boards.NewAsWritten`, which requires `width >= 1` because `width - 1` underflows for 0. That panics in a build with overflow checks. A release build wraps it and gets a selector with `max == usize::MAX`, which is not modelled.
- Boards.Board.constructor: keeps the source's start position `pos == 1` even on a one-column board, where `max == 0`. That state breaks the promise of src/board.rs:111-112 that `max` is the largest column the selector can have. So the board invariant allows that one state as an exception to `pos <= max`. On it, the selector line draws no marker, and a drop would index column 1 of a one-cell row and panic. `Boards.OneColumnExample` shows this, and shows that `SelectorShl` or `SelectorReset` brings the selector back to column 0. No corrected start position is modelled.
- Boards.Board.DropPiece: requires the top cell of the selected column to be empty, and `selector.pos < width`. On a full column the source underflows, and on a selector past the last column it indexes out of bounds; both panic.
  - On boards of two or more columns `selector.pos < width` always holds (`Boards.Board.SelectorInBounds`). Only the one-column start state below breaks it.
- Boards.Board.SelectorShr, Boards.Selector.Shr, Boards.ShiftRight: require `max >= 1`. The source's `max - 1` underflows on a one-column board. The model takes the overflow-checked (debug build) behaviour, a panic. It leaves out the release-build wrap-around, where `pos.min(usize::MAX) + 1` lets the selector move right without bound.
- `usize` is modelled as `nat`. The only arithmetic that can leave the range is the underflows listed above. Those are preconditions, following a build with overflow checks; release-build wrap-around is not modelled.
- `reset_board` (src/board.rs:56-61) only writes a cursor-up escape sequence for redrawing. It is not part of this model.
- The `io::Result` of every write: writes are taken to succeed, and the writer is a sequence of strings.
- The bytes of the selector markers (a colour escape and an angle quote): they are kept as opaque constant strings. No encoding is modelled.
- The `Debug`, `Clone` and `PartialEq` derives are not modelled.
- src/main.rs is not part of this model. It sets up the terminal, writes to stdout and flushes it. Its call to `board.write` also passes two arguments where `Board::write` takes three.
- Turn alternation, input handling and win detection: the modelled files do not implement them.
