/** Chess/Model/ChessRules.swift: an older generator that returns target
    squares instead of moves. It walks the rook's and bishop's directions in a
    different order from Movement.swift and has no en passant; otherwise it
    finds the same squares, which the agreement lemmas at the end state. */
module ChessRules {
  import opened Optional
  import opened Pieces
  import opened Util
  import opened Board
  import opened Geometry
  import Movement

  /** rookMoves walks the rows (+1, -1) and then the columns (+1, -1). */
  const RookDirections: seq<Incrementer> :=
    [Incrementer(1, 0), Incrementer(-1, 0), Incrementer(0, 1), Incrementer(0, -1)]

  /** bishopMoves' four unrolled walks, in order. */
  const BishopDirections: seq<Incrementer> :=
    [Incrementer(1, 1), Incrementer(-1, -1), Incrementer(-1, 1), Incrementer(1, -1)]

  lemma DirectionTables()
    ensures forall d :: d in RookDirections <==> IsStraightUnit(d)
    ensures forall d :: d in BishopDirections <==> IsDiagonalUnit(d)
    ensures forall d | d in RookDirections :: IsUnitStep(d)
    ensures forall d | d in BishopDirections :: IsUnitStep(d)
  {
  }

  /** The double-step square is read without a bounds check once the single
      step is open and the pawn has not moved. */
  predicate PawnMovesDefined(b: ChessBoard, from: Coordinates, piece: ChessPiece) {
    IsVacant(b, Ahead(from, piece.team, 1, 0)) && !piece.hasMoved ==> IsValidTile(b, Ahead(from, piece.team, 2, 0))
  }

  /** The squares a pawn may go to: one forward onto an empty square, two from
      an unmoved pawn over two empty squares, or one diagonally forward onto
      an opposing piece. */
  predicate PawnTarget(b: ChessBoard, from: Coordinates, piece: ChessPiece, t: Coordinates) {
    (t == Ahead(from, piece.team, 1, 0) && IsVacant(b, t)) ||
    (t == Ahead(from, piece.team, 2, 0) && !piece.hasMoved && IsVacant(b, Ahead(from, piece.team, 1, 0)) && IsVacant(b, t)) ||
    (t.row == Ahead(from, piece.team, 1, 0).row && Abs(t.col - from.col) == 1 &&
     IsValidTile(b, t) && ContainsOpposingTeam(b, t, piece.team))
  }

  /** The diagonal capture towards column offset `dc`, if any. */
  function PawnCaptureSquare(b: ChessBoard, from: Coordinates, piece: ChessPiece, dc: int): (r: seq<Coordinates>)
    ensures forall t :: t in r <==>
      t == Ahead(from, piece.team, 1, dc) && IsValidTile(b, t) && ContainsOpposingTeam(b, t, piece.team)
  {
    var t := Ahead(from, piece.team, 1, dc);
    if IsValidTile(b, t) && ContainsOpposingTeam(b, t, piece.team) then [t] else []
  }

  /** The forward squares: the single step, then the double step once the single step was added. */
  function PawnAdvances(b: ChessBoard, from: Coordinates, piece: ChessPiece): (r: seq<Coordinates>)
    requires PawnMovesDefined(b, from, piece)
    ensures |r| <= 2
    ensures forall t :: t in r <==>
      (t == Ahead(from, piece.team, 1, 0) && IsVacant(b, t)) ||
      (t == Ahead(from, piece.team, 2, 0) && !piece.hasMoved && IsVacant(b, Ahead(from, piece.team, 1, 0)) && IsVacant(b, t))
  {
    var single := Ahead(from, piece.team, 1, 0);
    var singles := if IsValidTile(b, single) && IsEmptyTile(b, single) then [single] else [];
    var double := Ahead(from, piece.team, 2, 0);
    var doubles := if |singles| > 0 && !piece.hasMoved && IsEmptyTile(b, double) then [double] else [];
    singles + doubles
  }

  function PawnMoves(b: ChessBoard, from: Coordinates, piece: ChessPiece): (r: seq<Coordinates>)
    requires PawnMovesDefined(b, from, piece)
    ensures forall t :: t in r <==> PawnTarget(b, from, piece, t)
    ensures |r| <= 4
  {
    PawnAdvances(b, from, piece) + PawnCaptureSquare(b, from, piece, 1) + PawnCaptureSquare(b, from, piece, -1)
  }

  function RookMoves(b: ChessBoard, from: Coordinates, piece: ChessPiece): (r: seq<Coordinates>)
    ensures forall t :: t in r <==> IsStraightLine(from, t) && ClearPath(b, from, t) && Landable(b, t, piece.team)
  {
    DirectionTables();
    RaysTargetsIff(b, from, piece.team, RookDirections);
    StraightDirections(b, from, piece.team, RookDirections);
    RaysTargets(b, from, piece.team, RookDirections)
  }

  function BishopMoves(b: ChessBoard, from: Coordinates, piece: ChessPiece): (r: seq<Coordinates>)
    ensures forall t :: t in r <==> IsDiagonalLine(from, t) && ClearPath(b, from, t) && Landable(b, t, piece.team)
  {
    DirectionTables();
    RaysTargetsIff(b, from, piece.team, BishopDirections);
    DiagonalDirections(b, from, piece.team, BishopDirections);
    RaysTargets(b, from, piece.team, BishopDirections)
  }

  function QueenMoves(b: ChessBoard, from: Coordinates, piece: ChessPiece): (r: seq<Coordinates>)
    ensures forall t :: t in r <==>
      (IsStraightLine(from, t) || IsDiagonalLine(from, t)) && ClearPath(b, from, t) && Landable(b, t, piece.team)
  {
    RookMoves(b, from, piece) + BishopMoves(b, from, piece)
  }

  /** The same eight candidates, filtered the same way, as Movement.swift's
      allPotentialKnightMoveTos. */
  function AllPotentialKnightMoves(b: ChessBoard, from: Coordinates): (r: seq<Coordinates>)
    ensures forall t :: t in r <==> IsValidTile(b, t) && KnightJump(from, t)
    ensures Distinct(r) && |r| <= 8
  {
    Movement.AllPotentialKnightMoveTos(b, from)
  }

  function KnightMoves(b: ChessBoard, from: Coordinates, piece: ChessPiece): (r: seq<Coordinates>)
    ensures forall t :: t in r <==> KnightJump(from, t) && Landable(b, t, piece.team)
    ensures Distinct(r)
  {
    Movement.LandableOnly(b, AllPotentialKnightMoves(b, from), piece.team)
  }

  /** One side of castleMoves: the king's destination when castling towards `dir`. */
  function CastleSide(b: ChessBoard, from: Coordinates, team: Team, ext: BoardExtensions, dir: int): seq<Coordinates>
    requires dir == 1 || dir == -1
  {
    match FirstPieceInPath(b, from, None, 0, dir)
    case None => []
    case Some(f) =>
      match At(b, f)
      case None => []
      case Some(rook) =>
        if rook.pieceType == Rook && !rook.hasMoved &&
           ext.pathNotUnderAttack(b, from, 0, dir, Coordinates(from.row, from.col + 3 * dir), OpposingTeam(team))
        then [Coordinates(from.row, from.col + 2 * dir)]
        else []
  }

  /** The king's destination for each castle Movement.swift allows, in the same order. */
  function CastleMoves(b: ChessBoard, from: Coordinates, piece: ChessPiece, ext: BoardExtensions): (r: seq<Coordinates>)
    ensures r == Movement.Destinations(Movement.CastleMoves(b, from, piece, ext))
  {
    if piece.hasMoved then []
    else
      Movement.DestinationsAppend(Movement.CastleSide(b, from, piece.team, ext, 1), Movement.CastleSide(b, from, piece.team, ext, -1));
      CastleSide(b, from, piece.team, ext, 1) + CastleSide(b, from, piece.team, ext, -1)
  }

  /** The king's safe steps followed by its castling destinations. */
  function KingMoves(b: ChessBoard, from: Coordinates, piece: ChessPiece, ext: BoardExtensions): (r: seq<Coordinates>)
    ensures r == Movement.Destinations(Movement.KingMoves(b, from, piece, ext))
  {
    var steps := Movement.SafeSteps(b, from, piece.team, ext, AdjacentTiles(b, from));
    Movement.DestinationsAppend(Movement.TargetsToMoves(b, from, steps), Movement.CastleMoves(b, from, piece, ext));
    steps + CastleMoves(b, from, piece, ext)
  }

  // ---------------------------------------------------------------------------
  // Agreement with Movement.swift
  // ---------------------------------------------------------------------------

  lemma PawnAttackAgrees(b: ChessBoard, from: Coordinates, piece: ChessPiece, dc: int)
    requires dc == 1 || dc == -1
    ensures Movement.EnPassantReadable(b, Ahead(from, piece.team, 1, dc), piece.team, None)
    ensures PawnCaptureSquare(b, from, piece, dc) == Movement.Destinations(Movement.PawnAttack(b, from, piece, None, dc))
  {
  }

  lemma PawnAdvancesAgree(b: ChessBoard, from: Coordinates, piece: ChessPiece)
    requires PawnMovesDefined(b, from, piece)
    ensures PawnAdvances(b, from, piece) == Movement.Destinations(Movement.PawnAdvances(b, from, piece))
  {
  }

  /** Without a last move (so no en passant) both pawn generators list the same
      squares in the same order. */
  lemma PawnMovesAgree(b: ChessBoard, from: Coordinates, piece: ChessPiece)
    requires PawnMovesDefined(b, from, piece)
    ensures Movement.PawnMovesDefined(b, from, piece, None)
    ensures PawnMoves(b, from, piece) == Movement.Destinations(Movement.PawnMoves(b, from, piece, None))
  {
    PawnAdvancesAgree(b, from, piece);
    PawnAttackAgrees(b, from, piece, 1);
    PawnAttackAgrees(b, from, piece, -1);
    var adv := Movement.PawnAdvances(b, from, piece);
    var a1 := Movement.PawnAttack(b, from, piece, None, 1);
    var a2 := Movement.PawnAttack(b, from, piece, None, -1);
    Movement.DestinationsAppend(adv + a1, a2);
    Movement.DestinationsAppend(adv, a1);
  }

  /** The two rook generators find the same squares (in a different order). */
  lemma RookMovesAgree(b: ChessBoard, from: Coordinates, piece: ChessPiece)
    ensures forall t :: t in RookMoves(b, from, piece) <==> t in Movement.Destinations(Movement.RookMoves(b, from, piece))
  {
  }

  lemma BishopMovesAgree(b: ChessBoard, from: Coordinates, piece: ChessPiece)
    ensures forall t :: t in BishopMoves(b, from, piece) <==> t in Movement.Destinations(Movement.BishopMoves(b, from, piece))
  {
  }

  lemma QueenMovesAgree(b: ChessBoard, from: Coordinates, piece: ChessPiece)
    ensures forall t :: t in QueenMoves(b, from, piece) <==> t in Movement.Destinations(Movement.QueenMoves(b, from, piece))
  {
  }

  /** The knight generators list the same squares in the same order. */
  lemma KnightMovesAgree(b: ChessBoard, from: Coordinates, piece: ChessPiece)
    ensures KnightMoves(b, from, piece) == Movement.Destinations(Movement.KnightMoves(b, from, piece))
  {
  }
}
