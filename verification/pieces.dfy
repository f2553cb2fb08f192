/** The value types declared at the top of Chess/Model/Chess.swift: teams,
    piece kinds, pieces, coordinates and moves, with the four `Move`
    initialisers. */
module Pieces {
  import opened Optional

  datatype Team = White | Black

  /** The checkerboard colour of a tile. */
  datatype TileType = Light | Dark

  datatype PieceType = King | Queen | Rook | Bishop | Knight | Pawn

  /** `hasMoved` only gates the pawn double step and castling. */
  datatype ChessPiece = ChessPiece(id: int, team: Team, pieceType: PieceType, hasMoved: bool)

  /** Unbounded on purpose: generators step off the board and test validity afterwards. */
  datatype Coordinates = Coordinates(row: int, col: int)

  /** `secondaryFrom`/`secondaryTo` carry the rook of a castle; `captureLocation`
      differs from `to` only for en passant. */
  datatype Move = Move(
    from: Coordinates,
    to: Coordinates,
    secondaryFrom: Option<Coordinates>,
    secondaryTo: Option<Coordinates>,
    captures: Option<ChessPiece>,
    captureLocation: Option<Coordinates>)
  {
    /** Neither a castle nor a capture. */
    predicate IsQuiet() {
      secondaryFrom.None? && secondaryTo.None? && captures.None? && captureLocation.None?
    }

    /** A king move that also relocates a rook. */
    predicate IsCastle() {
      secondaryFrom.Some? && secondaryTo.Some? && captures.None? && captureLocation.None?
    }

    /** A move that removes the piece found at `captureLocation`. */
    predicate IsCapture() {
      secondaryFrom.None? && secondaryTo.None? && captures.Some? && captureLocation.Some?
    }
  }

  /** `Move(from:to:)`: a plain relocation. */
  function QuietMove(from: Coordinates, to: Coordinates): (m: Move)
    ensures m.IsQuiet() && !m.IsCastle() && !m.IsCapture()
    ensures m.from == from && m.to == to
  {
    Move(from, to, None, None, None, None)
  }

  /** `Move(fromToPairs:)`: king from/to, then rook from/to. The Swift array
      subscript traps on fewer than four entries. */
  function CastleMove(fromToPairs: seq<Coordinates>): (m: Move)
    requires |fromToPairs| >= 4
    ensures m.IsCastle() && !m.IsQuiet() && !m.IsCapture()
    ensures m.from == fromToPairs[0] && m.to == fromToPairs[1]
    ensures m.secondaryFrom == Some(fromToPairs[2]) && m.secondaryTo == Some(fromToPairs[3])
  {
    Move(fromToPairs[0], fromToPairs[1], Some(fromToPairs[2]), Some(fromToPairs[3]), None, None)
  }

  /** `Move(from:to:captures:captureLocation:)`: a capture of a piece standing
      on `captureLocation`, which need not be the destination. */
  function CaptureAtMove(from: Coordinates, to: Coordinates, captures: ChessPiece, captureLocation: Coordinates): (m: Move)
    ensures m.IsCapture() && !m.IsQuiet() && !m.IsCastle()
    ensures m.from == from && m.to == to
    ensures m.captures == Some(captures) && m.captureLocation == Some(captureLocation)
  {
    Move(from, to, None, None, Some(captures), Some(captureLocation))
  }

  /** `Move(from:to:captures:)`: delegates with the destination as the capture square. */
  function CaptureMove(from: Coordinates, to: Coordinates, captures: ChessPiece): (m: Move)
    ensures m == CaptureAtMove(from, to, captures, to)
    ensures m.captureLocation == Some(m.to)
  {
    CaptureAtMove(from, to, captures, to)
  }

  /** The three move shapes are mutually exclusive, so a move built by one
      initialiser is never equal to one built by another. */
  lemma MoveShapesDisjoint(m: Move)
    ensures !(m.IsQuiet() && m.IsCastle())
    ensures !(m.IsQuiet() && m.IsCapture())
    ensures !(m.IsCastle() && m.IsCapture())
  {
  }
}
