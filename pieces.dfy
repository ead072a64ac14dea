/**
 * Cells, players, pieces and the glyph definitions used to draw them
 * (src/piece.rs).
 */
module Pieces {

  datatype Option<+T> = None | Some(value: T)

  /** One of the two players. */
  datatype Player = P1 | P2 {

    /** The player whose turn comes after this one. */
    function Next(): (q: Player)
      ensures q != this
    {
      match this
      case P1 => P2
      case P2 => P1
    }
  }

  /** Handing the turn over twice gives it back to the same player. */
  lemma NextInvolutive(p: Player)
    ensures p.Next().Next() == p && p.Next() != p
  {
  }

  /** A piece on the board; every piece belongs to a player. */
  datatype Piece = Reg(player: Player)

  /**
   * The three display strings: one per player and one for an empty cell.
   * They are opaque to the board and may hold terminal styling.
   */
  datatype PieceDef = PieceDef(p1: string, p2: string, empty: string) {

    /** The three strings differ, so a glyph tells which state it stands for. */
    predicate Distinct() {
      p1 != p2 && p1 != empty && p2 != empty
    }
  }

  /** Builds a glyph definition that keeps the three strings as given. */
  function NewPieceDef(p1: string, p2: string, empty: string): (d: PieceDef)
    ensures d.p1 == p1 && d.p2 == p2 && d.empty == empty
  {
    PieceDef(p1, p2, empty)
  }

  /** The string `Piece::write` emits for `piece`. */
  function PieceGlyph(piece: Piece, def: PieceDef): (g: string)
    ensures piece.player == P1 ==> g == def.p1
    ensures piece.player == P2 ==> g == def.p2
  {
    match piece
    case Reg(P1) => def.p1
    case Reg(P2) => def.p2
  }

  /** The two players' pieces look different whenever their strings differ. */
  lemma PieceGlyphChoice(def: PieceDef)
    ensures def.p1 != def.p2 ==> PieceGlyph(Reg(P1), def) != PieceGlyph(Reg(P2), def)
  {
  }

  /** A board cell: empty, or holding one piece. */
  datatype Cell = Cell(content: Option<Piece>) {

    function IsEmpty(): (b: bool)
      ensures b <==> this == Cell(None)
    {
      content.None?
    }
  }

  const EmptyCell: Cell := Cell(None)

  /** The string `Cell::write` emits for `cell`. */
  function CellGlyph(cell: Cell, def: PieceDef): (g: string)
    ensures cell.IsEmpty() ==> g == def.empty
    ensures !cell.IsEmpty() ==> g == PieceGlyph(cell.content.value, def)
    ensures def.Distinct() ==> (g == def.empty <==> cell.IsEmpty())
  {
    match cell.content
    case Some(piece) => PieceGlyph(piece, def)
    case None => def.empty
  }

  /**
   * Reads a glyph back as the cell it draws; the inverse of CellGlyph when
   * the three strings are distinct.
   */
  function CellOfGlyph(g: string, def: PieceDef): Option<Cell> {
    if g == def.p1 then Some(Cell(Some(Reg(P1))))
    else if g == def.p2 then Some(Cell(Some(Reg(P2))))
    else if g == def.empty then Some(EmptyCell)
    else None
  }

  /**
   * With distinct strings the glyph of a cell identifies the cell: the
   * rendered board loses nothing about who holds which cell.
   */
  lemma GlyphRoundTrip(cell: Cell, def: PieceDef)
    requires def.Distinct()
    ensures CellOfGlyph(CellGlyph(cell, def), def) == Some(cell)
    ensures cell.content == Some(Reg(P1)) ==> CellGlyph(cell, def) == def.p1
    ensures cell.content == Some(Reg(P2)) ==> CellGlyph(cell, def) == def.p2
    ensures cell.IsEmpty() ==> CellGlyph(cell, def) == def.empty
  {
  }

  /** Distinct cells get distinct glyphs when the three strings are distinct. */
  lemma GlyphInjective(c: Cell, d: Cell, def: PieceDef)
    requires def.Distinct()
    requires CellGlyph(c, def) == CellGlyph(d, def)
    ensures c == d
  {
    GlyphRoundTrip(c, def);
    GlyphRoundTrip(d, def);
  }
}
