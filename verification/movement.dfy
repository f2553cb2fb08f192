/** Chess/Model/Movement.swift: the moves each kind of piece may make from a
    square, before moves that leave the own king attacked are removed. */
module Movement {
  import opened Optional
  import opened Pieces
  import opened Util
  import opened Board
  import opened Geometry

  /** The sideways offsets of the two pawn captures, in the order tried. */
  const Increments: seq<int> := [1, -1]

  const DiagonalIncrementers: seq<Incrementer> :=
    [Incrementer(1, 1), Incrementer(-1, -1), Incrementer(1, -1), Incrementer(-1, 1)]

  const StraightIncrementers: seq<Incrementer> :=
    [Incrementer(1, 0), Incrementer(-1, 0), Incrementer(0, -1), Incrementer(0, 1)]

  /** The two tables list each of their four directions. */
  lemma IncrementerTables()
    ensures forall d :: d in StraightIncrementers <==> IsStraightUnit(d)
    ensures forall d :: d in DiagonalIncrementers <==> IsDiagonalUnit(d)
    ensures forall d | d in StraightIncrementers :: IsUnitStep(d)
    ensures forall d | d in DiagonalIncrementers :: IsUnitStep(d)
  {
  }

  // ---------------------------------------------------------------------------
  // Moves onto target squares
  // ---------------------------------------------------------------------------

  /** A move onto `t`: plain when the square is empty, otherwise a capture of
      its occupant. */
  function MoveTo(b: ChessBoard, from: Coordinates, t: Coordinates): (m: Move)
    requires IsValidTile(b, t)
    ensures m.from == from && m.to == t
    ensures IsEmptyTile(b, t) <==> m.IsQuiet()
    ensures !IsEmptyTile(b, t) <==> m.IsCapture() && m.captures == At(b, t) && m.captureLocation == Some(t)
  {
    if IsEmptyTile(b, t) then QuietMove(from, t) else CaptureMove(from, t, At(b, t).value)
  }

  /** `m` goes from `from` to an on-board square, as a plain move when the
      square is empty and as a capture of its occupant otherwise. */
  predicate SimpleMoveFrom(b: ChessBoard, from: Coordinates, m: Move) {
    IsValidTile(b, m.to) && m == MoveTo(b, from, m.to)
  }

  function Destinations(ms: seq<Move>): (r: seq<Coordinates>)
    ensures |r| == |ms| && forall i | 0 <= i < |ms| :: r[i] == ms[i].to
  {
    seq(|ms|, i requires 0 <= i < |ms| => ms[i].to)
  }

  lemma DestinationsAppend(a: seq<Move>, c: seq<Move>)
    ensures Destinations(a + c) == Destinations(a) + Destinations(c)
  {
  }

  /** The moves onto `ts`, one per target, in order. */
  function TargetsToMoves(b: ChessBoard, from: Coordinates, ts: seq<Coordinates>): (r: seq<Move>)
    requires forall t | t in ts :: IsValidTile(b, t)
    ensures Destinations(r) == ts
    ensures forall m | m in r :: SimpleMoveFrom(b, from, m)
    ensures forall t | t in ts :: MoveTo(b, from, t) in r
  {
    var r := seq(|ts|, i requires 0 <= i < |ts| => MoveTo(b, from, ts[i]));
    assert forall t | t in ts :: MoveTo(b, from, t) in r by {
      forall t | t in ts
        ensures MoveTo(b, from, t) in r
      {
        var i :| 0 <= i < |ts| && ts[i] == t;
        assert r[i] == MoveTo(b, from, t);
      }
    }
    r
  }

  // ---------------------------------------------------------------------------
  // Sliding pieces
  // ---------------------------------------------------------------------------

  /** The ray walks of `dirs`, turned into moves. */
  function Slide(b: ChessBoard, from: Coordinates, team: Team, dirs: seq<Incrementer>): (r: seq<Move>)
    requires forall d | d in dirs :: IsUnitStep(d)
    ensures forall m | m in r :: SimpleMoveFrom(b, from, m)
    ensures forall t :: t in Destinations(r) <==> Reachable(b, from, team, dirs, t)
  {
    RaysTargetsIff(b, from, team, dirs);
    TargetsToMoves(b, from, RaysTargets(b, from, team, dirs))
  }

  /** A rook reaches every square along its row and column up to the first
      piece, which it may capture when it is an opposing one. */
  function RookMoves(b: ChessBoard, from: Coordinates, piece: ChessPiece): (r: seq<Move>)
    ensures forall m | m in r :: SimpleMoveFrom(b, from, m)
    ensures forall t :: t in Destinations(r) <==>
      IsStraightLine(from, t) && ClearPath(b, from, t) && Landable(b, t, piece.team)
  {
    IncrementerTables();
    StraightDirections(b, from, piece.team, StraightIncrementers);
    Slide(b, from, piece.team, StraightIncrementers)
  }

  /** The same along the two diagonals. */
  function BishopMoves(b: ChessBoard, from: Coordinates, piece: ChessPiece): (r: seq<Move>)
    ensures forall m | m in r :: SimpleMoveFrom(b, from, m)
    ensures forall t :: t in Destinations(r) <==>
      IsDiagonalLine(from, t) && ClearPath(b, from, t) && Landable(b, t, piece.team)
  {
    IncrementerTables();
    DiagonalDirections(b, from, piece.team, DiagonalIncrementers);
    Slide(b, from, piece.team, DiagonalIncrementers)
  }

  /** The rook's moves followed by the bishop's. */
  function QueenMoves(b: ChessBoard, from: Coordinates, piece: ChessPiece): (r: seq<Move>)
    ensures forall m | m in r :: SimpleMoveFrom(b, from, m)
    ensures forall t :: t in Destinations(r) <==>
      (IsStraightLine(from, t) || IsDiagonalLine(from, t)) && ClearPath(b, from, t) && Landable(b, t, piece.team)
  {
    DestinationsAppend(RookMoves(b, from, piece), BishopMoves(b, from, piece));
    RookMoves(b, from, piece) + BishopMoves(b, from, piece)
  }

  // ---------------------------------------------------------------------------
  // Knights
  // ---------------------------------------------------------------------------

  /** The on-board knight jumps from `from`, each once. */
  function AllPotentialKnightMoveTos(b: ChessBoard, from: Coordinates): (r: seq<Coordinates>)
    ensures forall t :: t in r <==> IsValidTile(b, t) && KnightJump(from, t)
    ensures Distinct(r) && |r| <= 8
  {
    KnightCandidatesAreJumps(from);
    ValidOnly(b, KnightCandidates(from))
  }

  /** `filter { isEmptyTile($0) || containsOpposingTeam($0, of: team) }`, order preserved. */
  function LandableOnly(b: ChessBoard, cs: seq<Coordinates>, team: Team): (r: seq<Coordinates>)
    ensures forall t :: t in r <==> t in cs && Landable(b, t, team)
    ensures Distinct(cs) ==> Distinct(r)
  {
    if cs == [] then []
    else
      var rest := LandableOnly(b, cs[1..], team);
      assert Distinct(cs) ==> Distinct(cs[1..]) && cs[0] !in cs[1..];
      if Landable(b, cs[0], team) then [cs[0]] + rest else rest
  }

  /** A knight reaches every jump square that is empty or opposing, once each. */
  function KnightMoves(b: ChessBoard, from: Coordinates, piece: ChessPiece): (r: seq<Move>)
    ensures forall m | m in r :: SimpleMoveFrom(b, from, m)
    ensures forall t :: t in Destinations(r) <==> KnightJump(from, t) && Landable(b, t, piece.team)
    ensures Distinct(Destinations(r))
  {
    TargetsToMoves(b, from, LandableOnly(b, AllPotentialKnightMoveTos(b, from), piece.team))
  }

  // ---------------------------------------------------------------------------
  // Pawns
  // ---------------------------------------------------------------------------

  /** The en passant test reads `board[lastMove.to]` when it runs, which is for
      an on-board diagonal holding no opposing piece; the read traps off the board. */
  predicate EnPassantReadable(b: ChessBoard, at: Coordinates, team: Team, lastMove: Option<Move>) {
    IsValidTile(b, at) && !ContainsOpposingTeam(b, at, team) && lastMove.Some? ==> IsValidTile(b, lastMove.value.to)
  }

  /** What pawnMoves needs in order not to trap: the double-step square is read
      without a bounds check once the single step is open and the pawn has not
      moved, and the en passant test must be able to read its square. */
  predicate PawnMovesDefined(b: ChessBoard, from: Coordinates, piece: ChessPiece, lastMove: Option<Move>) {
    (IsVacant(b, Ahead(from, piece.team, 1, 0)) && !piece.hasMoved ==> IsValidTile(b, Ahead(from, piece.team, 2, 0))) &&
    EnPassantReadable(b, Ahead(from, piece.team, 1, 1), piece.team, lastMove) &&
    EnPassantReadable(b, Ahead(from, piece.team, 1, -1), piece.team, lastMove)
  }

  /** The square a pawn of `team` passed over on `lastMove`, as the source
      computes it from the team of the piece now on `lastMove.to`. */
  function PassedSquare(lastMove: Move, team: Team): Coordinates {
    Ahead(lastMove.from, team, 1, 0)
  }

  /** The last move put a pawn two rows away on `at`'s column, and `at` is the
      square that pawn passed over. */
  predicate EnPassant(b: ChessBoard, at: Coordinates, lastMove: Option<Move>)
    requires lastMove.Some? ==> IsValidTile(b, lastMove.value.to)
    ensures EnPassant(b, at, lastMove) ==>
      lastMove.Some? && at != lastMove.value.to && at.col == lastMove.value.to.col &&
      At(b, lastMove.value.to).Some? && At(b, lastMove.value.to).value.pieceType == Pawn
    ensures EnPassant(b, at, lastMove) ==>
      Abs(lastMove.value.to.row - lastMove.value.from.row) == 2 && lastMove.value.from.col == at.col &&
      at == PassedSquare(lastMove.value, At(b, lastMove.value.to).value.team)
  {
    match lastMove
    case None => false
    case Some(lm) =>
      match At(b, lm.to)
      case None => false
      case Some(lastPiece) =>
        lastPiece.pieceType == Pawn &&
        if lm.to.col == at.col && Abs(lm.to.row - lm.from.row) == 2 then at == PassedSquare(lm, lastPiece.team)
        else false
  }

  /** When the last move was an opponent pawn's double step towards its own
      front, exactly the square it skipped is open to en passant. */
  lemma EnPassantTargetsSkippedSquare(b: ChessBoard, at: Coordinates, lm: Move)
    requires IsValidTile(b, lm.to) && At(b, lm.to).Some? && At(b, lm.to).value.pieceType == Pawn
    requires lm.to == Ahead(lm.from, At(b, lm.to).value.team, 2, 0)
    ensures EnPassant(b, at, Some(lm)) <==> at == Ahead(lm.from, At(b, lm.to).value.team, 1, 0)
  {
  }

  /** After any last move: a square is open to en passant exactly when a pawn
      stands on the last move's destination, that move went two rows along
      one column, and the square lies on that column one row ahead of the
      origin for the pawn's team. A single step, a sideways move or a move of
      another piece opens nothing. */
  lemma EnPassantOnlyAfterDoubleStep(b: ChessBoard, at: Coordinates, lm: Move)
    requires IsValidTile(b, lm.to)
    ensures EnPassant(b, at, Some(lm)) <==>
      At(b, lm.to).Some? && At(b, lm.to).value.pieceType == Pawn &&
      lm.from.col == lm.to.col && (lm.to.row == lm.from.row + 2 || lm.to.row == lm.from.row - 2) &&
      at.col == lm.from.col && at.row == lm.from.row + (if At(b, lm.to).value.team == White then -1 else 1)
  {
  }

  predicate PawnAdvance(b: ChessBoard, from: Coordinates, team: Team, m: Move) {
    m.IsQuiet() && m.from == from && m.to == Ahead(from, team, 1, 0) && IsVacant(b, m.to)
  }

  predicate PawnDoubleAdvance(b: ChessBoard, from: Coordinates, piece: ChessPiece, m: Move) {
    m.IsQuiet() && m.from == from && m.to == Ahead(from, piece.team, 2, 0) && !piece.hasMoved &&
    IsVacant(b, Ahead(from, piece.team, 1, 0)) && IsVacant(b, m.to)
  }

  /** A capture one row forward and one column across, of the opposing piece standing there. */
  predicate PawnCapture(b: ChessBoard, from: Coordinates, team: Team, m: Move) {
    m.IsCapture() && m.from == from && Abs(m.to.col - from.col) == 1 && m.to.row == Ahead(from, team, 1, 0).row &&
    IsValidTile(b, m.to) && ContainsOpposingTeam(b, m.to, team) &&
    m.captures == At(b, m.to) && m.captureLocation == Some(m.to)
  }

  /** A move one row forward and one column across onto a square without an
      opposing piece, capturing the pawn that has just passed it. */
  predicate PawnEnPassant(b: ChessBoard, from: Coordinates, team: Team, lastMove: Option<Move>, m: Move) {
    m.IsCapture() && m.from == from && Abs(m.to.col - from.col) == 1 && m.to.row == Ahead(from, team, 1, 0).row &&
    IsValidTile(b, m.to) && !ContainsOpposingTeam(b, m.to, team) &&
    lastMove.Some? && IsValidTile(b, lastMove.value.to) && EnPassant(b, m.to, lastMove) &&
    m.captures == At(b, lastMove.value.to) && m.captureLocation == Some(lastMove.value.to)
  }

  predicate PawnMoveRule(b: ChessBoard, from: Coordinates, piece: ChessPiece, lastMove: Option<Move>, m: Move) {
    PawnAdvance(b, from, piece.team, m) || PawnDoubleAdvance(b, from, piece, m) ||
    PawnCapture(b, from, piece.team, m) || PawnEnPassant(b, from, piece.team, lastMove, m)
  }

  /** The capture towards column offset `dc`, if any. */
  function PawnAttack(b: ChessBoard, from: Coordinates, piece: ChessPiece, lastMove: Option<Move>, dc: int): (r: seq<Move>)
    requires dc == 1 || dc == -1
    requires EnPassantReadable(b, Ahead(from, piece.team, 1, dc), piece.team, lastMove)
    ensures |r| <= 1
    ensures forall m :: m in r <==>
      m.to.col == from.col + dc && (PawnCapture(b, from, piece.team, m) || PawnEnPassant(b, from, piece.team, lastMove, m))
  {
    var at := Ahead(from, piece.team, 1, dc);
    if !IsValidTile(b, at) then []
    else if ContainsOpposingTeam(b, at, piece.team) then [CaptureMove(from, at, At(b, at).value)]
    else if EnPassant(b, at, lastMove) then
      [CaptureAtMove(from, at, At(b, lastMove.value.to).value, lastMove.value.to)]
    else []
  }

  /** The forward moves: the single step, then the double step, which the
      source tries only once the single step was added. */
  function PawnAdvances(b: ChessBoard, from: Coordinates, piece: ChessPiece): (r: seq<Move>)
    requires IsVacant(b, Ahead(from, piece.team, 1, 0)) && !piece.hasMoved ==> IsValidTile(b, Ahead(from, piece.team, 2, 0))
    ensures |r| <= 2
    ensures forall m :: m in r <==> PawnAdvance(b, from, piece.team, m) || PawnDoubleAdvance(b, from, piece, m)
  {
    var single := Ahead(from, piece.team, 1, 0);
    var singles := if IsValidTile(b, single) && IsEmptyTile(b, single) then [QuietMove(from, single)] else [];
    var double := Ahead(from, piece.team, 2, 0);
    var doubles := if |singles| > 0 && !piece.hasMoved && IsEmptyTile(b, double) then [QuietMove(from, double)] else [];
    singles + doubles
  }

  /** The pawn's moves: one step forward onto an empty square; two steps from
      an unmoved pawn when both squares are empty; a diagonal capture of an
      opposing piece; and en passant. */
  function PawnMoves(b: ChessBoard, from: Coordinates, piece: ChessPiece, lastMove: Option<Move>): (r: seq<Move>)
    requires PawnMovesDefined(b, from, piece, lastMove)
    ensures forall m :: m in r <==> PawnMoveRule(b, from, piece, lastMove, m)
    ensures |r| <= 4
  {
    PawnAdvances(b, from, piece) + PawnAttack(b, from, piece, lastMove, 1) + PawnAttack(b, from, piece, lastMove, -1)
  }

  // ---------------------------------------------------------------------------
  // King and castling
  // ---------------------------------------------------------------------------

  /** A king step: an adjacent on-board square that is empty or opposing and
      not attacked by the other side once the king has left `from`. */
  predicate KingStepAllowed(b: ChessBoard, from: Coordinates, team: Team, ext: BoardExtensions, t: Coordinates) {
    IsValidTile(b, t) && t != from && AreAdjacent(from, t) && Landable(b, t, team) &&
    !ext.underAttack(b, t, Some(from), OpposingTeam(team))
  }

  /** The adjacent squares that pass the test of kingMoves, order preserved. */
  function SafeSteps(b: ChessBoard, from: Coordinates, team: Team, ext: BoardExtensions, ts: seq<Coordinates>): (r: seq<Coordinates>)
    ensures forall t :: t in r <==> t in ts && Landable(b, t, team) && !ext.underAttack(b, t, Some(from), OpposingTeam(team))
  {
    if ts == [] then []
    else
      var rest := SafeSteps(b, from, team, ext, ts[1..]);
      if Landable(b, ts[0], team) && !ext.underAttack(b, ts[0], Some(from), OpposingTeam(team)) then [ts[0]] + rest else rest
  }

  /** `s` is the nearest piece to `from` along its row in direction `dir`. */
  predicate NearestOnRow(b: ChessBoard, from: Coordinates, s: Coordinates, dir: int) {
    s.row == from.row && Sign(s.col - from.col) == dir && IsValidTile(b, s) && !IsEmptyTile(b, s) && ClearPath(b, from, s)
  }

  lemma PathSquareOnRow(from: Coordinates, dir: int, j: nat)
    requires dir == 1 || dir == -1
    ensures PathSquare(from, 0, dir, j) == RaySquare(from, Incrementer(0, dir), j)
  {
    RaySquareClosed(from, Incrementer(0, dir), j);
    if dir == 1 {
      assert PathSquare(from, 0, dir, j) == Coordinates(from.row, from.col + j);
    } else {
      assert PathSquare(from, 0, dir, j) == Coordinates(from.row, from.col - j);
    }
  }

  lemma FirstPieceOnRowIsNearest(b: ChessBoard, from: Coordinates, dir: int, s: Coordinates)
    requires dir == 1 || dir == -1
    requires FirstPieceInPath(b, from, None, 0, dir) == Some(s)
    ensures NearestOnRow(b, from, s, dir)
  {
    var n := FirstPieceInPathStops(b, from, None, 0, dir);
    PathSquareOnRow(from, dir, n);
    RaySquareIsAligned(from, Incrementer(0, dir), n);
    forall j | 1 <= j < Distance(from, s)
      ensures IsVacant(b, RaySquare(from, Direction(from, s), j))
    {
      PathSquareOnRow(from, dir, j);
    }
  }

  lemma NearestIsFirstPieceOnRow(b: ChessBoard, from: Coordinates, dir: int, s: Coordinates)
    requires dir == 1 || dir == -1
    requires NearestOnRow(b, from, s, dir)
    ensures FirstPieceInPath(b, from, None, 0, dir) == Some(s)
  {
    var n := FirstPieceInPathStops(b, from, None, 0, dir);
    AlignedIsRaySquare(from, s);
    var k := Distance(from, s);
    assert Direction(from, s) == Incrementer(0, dir);
    PathSquareOnRow(from, dir, k);
    PathSquareOnRow(from, dir, n);
  }

  /** Along a row, the first piece in the path is exactly the nearest piece. */
  lemma FirstPieceOnRow(b: ChessBoard, from: Coordinates, dir: int, s: Coordinates)
    requires dir == 1 || dir == -1
    ensures FirstPieceInPath(b, from, None, 0, dir) == Some(s) <==> NearestOnRow(b, from, s, dir)
  {
    if FirstPieceInPath(b, from, None, 0, dir) == Some(s) {
      FirstPieceOnRowIsNearest(b, from, dir, s);
    }
    if NearestOnRow(b, from, s, dir) {
      NearestIsFirstPieceOnRow(b, from, dir, s);
    }
  }

  /** Castling towards `dir`: the king moves two squares, the rook that is the
      nearest piece on that side and has not moved lands on the square the king
      crossed, and the path up to three squares out is not under attack. */
  predicate CastleRule(b: ChessBoard, from: Coordinates, team: Team, ext: BoardExtensions, dir: int, m: Move) {
    m.IsCastle() && m.from == from && m.to == Coordinates(from.row, from.col + 2 * dir) &&
    m.secondaryTo == Some(Coordinates(from.row, from.col + dir)) &&
    NearestOnRow(b, from, m.secondaryFrom.value, dir) &&
    At(b, m.secondaryFrom.value).value.pieceType == Rook && !At(b, m.secondaryFrom.value).value.hasMoved &&
    ext.pathNotUnderAttack(b, from, 0, dir, Coordinates(from.row, from.col + 3 * dir), OpposingTeam(team))
  }

  /** One side of castleMoves. */
  function CastleSide(b: ChessBoard, from: Coordinates, team: Team, ext: BoardExtensions, dir: int): (r: seq<Move>)
    requires dir == 1 || dir == -1
    ensures |r| <= 1
    ensures forall m :: m in r <==> CastleRule(b, from, team, ext, dir, m)
  {
    match FirstPieceInPath(b, from, None, 0, dir)
    case None =>
      assert forall s :: !NearestOnRow(b, from, s, dir) by {
        forall s ensures !NearestOnRow(b, from, s, dir) { FirstPieceOnRow(b, from, dir, s); }
      }
      []
    case Some(f) =>
      FirstPieceOnRow(b, from, dir, f);
      assert forall s | NearestOnRow(b, from, s, dir) :: s == f by {
        forall s | NearestOnRow(b, from, s, dir) ensures s == f { FirstPieceOnRow(b, from, dir, s); }
      }
      match At(b, f)
      case None => []
      case Some(rook) =>
        if rook.pieceType == Rook && !rook.hasMoved &&
           ext.pathNotUnderAttack(b, from, 0, dir, Coordinates(from.row, from.col + 3 * dir), OpposingTeam(team))
        then [CastleMove([from, Coordinates(from.row, from.col + 2 * dir), f, Coordinates(from.row, from.col + dir)])]
        else []
  }

  /** Nothing once the king has moved; otherwise the king-side and then the
      queen-side castle, each when its rule holds. */
  function CastleMoves(b: ChessBoard, from: Coordinates, piece: ChessPiece, ext: BoardExtensions): (r: seq<Move>)
    ensures |r| <= 2
    ensures forall m :: m in r <==>
      !piece.hasMoved && (CastleRule(b, from, piece.team, ext, 1, m) || CastleRule(b, from, piece.team, ext, -1, m))
  {
    if piece.hasMoved then []
    else CastleSide(b, from, piece.team, ext, 1) + CastleSide(b, from, piece.team, ext, -1)
  }

  /** The king's steps followed by its castles. */
  function KingMoves(b: ChessBoard, from: Coordinates, piece: ChessPiece, ext: BoardExtensions): (r: seq<Move>)
    ensures forall m :: m in r && !m.IsCastle() <==>
      SimpleMoveFrom(b, from, m) && KingStepAllowed(b, from, piece.team, ext, m.to)
    ensures forall m :: m in r && m.IsCastle() <==>
      !piece.hasMoved && (CastleRule(b, from, piece.team, ext, 1, m) || CastleRule(b, from, piece.team, ext, -1, m))
  {
    var steps := TargetsToMoves(b, from, SafeSteps(b, from, piece.team, ext, AdjacentTiles(b, from)));
    assert forall m | m in steps :: !m.IsCastle();
    steps + CastleMoves(b, from, piece, ext)
  }
}
