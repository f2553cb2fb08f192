/** Chess/Model/Chess.swift: newGame resets the board but not the selection
    or its possible moves, so the first tap after a new game can play a move
    listed for the old position. The lemmas here exhibit such a move. */
module StaleSelection {
  import opened Optional
  import opened Pieces
  import opened Board
  import opened Geometry
  import opened Movement
  import opened Chess

  /** A white rook on (7, 0) with the four squares above it empty. */
  predicate RookReady(b: ChessBoard) {
    At(b, Coordinates(7, 0)).Some? &&
    At(b, Coordinates(7, 0)).value.team == White && At(b, Coordinates(7, 0)).value.pieceType == Rook &&
    At(b, Coordinates(6, 0)).None? && At(b, Coordinates(5, 0)).None? &&
    At(b, Coordinates(4, 0)).None? && At(b, Coordinates(3, 0)).None?
  }

  /** The rook's advance from (7, 0) to (3, 0); the squares are parameters
      fixed by this predicate, which keeps the proofs below from unfolding
      the move generators on constant squares. */
  predicate Advance(rook: Coordinates, target: Coordinates) {
    rook == Coordinates(7, 0) && target == Coordinates(3, 0)
  }

  /** With white to move and a ready rook, the advance is a legal move of the
      rook unless it exposes the king, which `underAttack` decides. */
  lemma RookAdvanceLegal(gs: GameState, ext: BoardExtensions, rook: Coordinates, target: Coordinates)
    requires Advance(rook, target)
    requires WhosTurn(gs) == White && ActiveKing(gs) != rook && RookReady(gs.board)
    requires !ext.underAttack(ScratchBoard(gs.board, rook, target), ActiveKing(gs), None, Black)
    ensures CanCalculate(gs, ext, rook)
    ensures QuietMove(rook, target) in CalculatePossibleMoves(gs, ext, rook)
  {
    AdvanceKeepsKingSafe(gs, ext, rook, target);
    RookAdvanceAmongRookMoves(gs.board, rook, target);
    LegalRookMove(gs, ext, rook, QuietMove(rook, target));
  }

  /** The advance passes the self-check test when the scratch board leaves
      the king unattacked. */
  lemma AdvanceKeepsKingSafe(gs: GameState, ext: BoardExtensions, rook: Coordinates, target: Coordinates)
    requires Advance(rook, target) && WhosTurn(gs) == White && ActiveKing(gs) != rook
    requires !ext.underAttack(ScratchBoard(gs.board, rook, target), ActiveKing(gs), None, Black)
    ensures SelfCheckReadable(MoverOf(gs), QuietMove(rook, target))
    ensures NoSelfCheck(MoverOf(gs), ext, QuietMove(rook, target))
  {
    assert MoverOf(gs) == Mover(gs.board, ActiveKing(gs), White);
  }

  /** A move of a rook that keeps the king safe is a possible move. */
  lemma LegalRookMove(gs: GameState, ext: BoardExtensions, location: Coordinates, m: Move)
    requires IsValidTile(gs.board, location) && location != ActiveKing(gs)
    requires At(gs.board, location).Some? && At(gs.board, location).value.pieceType == Rook
    requires m in RookMoves(gs.board, location, At(gs.board, location).value)
    requires SelfCheckReadable(MoverOf(gs), m) && NoSelfCheck(MoverOf(gs), ext, m)
    ensures CanCalculate(gs, ext, location)
    ensures m in CalculatePossibleMoves(gs, ext, location)
  {
    var piece := At(gs.board, location).value;
    RookPotentialMoves(gs.board, location, piece, LastMove(gs.moves), ext);
    CanCalculateWhenKingTracked(gs, ext, location);
    LegalWhenSafe(gs, ext, location, m);
  }

  lemma RookPotentialMoves(b: ChessBoard, location: Coordinates, piece: ChessPiece, lastMove: Option<Move>, ext: BoardExtensions)
    requires piece.pieceType == Rook
    ensures PotentialMoves(b, location, piece, lastMove, ext) == RookMoves(b, location, piece)
  {
  }

  /** A potential move that keeps the king safe is a possible move. */
  lemma LegalWhenSafe(gs: GameState, ext: BoardExtensions, location: Coordinates, m: Move)
    requires CanCalculate(gs, ext, location) && At(gs.board, location).Some?
    requires m in PotentialMoves(gs.board, location, At(gs.board, location).value, LastMove(gs.moves), ext)
    requires SelfCheckReadable(MoverOf(gs), m) && NoSelfCheck(MoverOf(gs), ext, m)
    ensures m in CalculatePossibleMoves(gs, ext, location)
  {
  }

  lemma RookAdvanceAmongRookMoves(b: ChessBoard, rook: Coordinates, target: Coordinates)
    requires Advance(rook, target) && RookReady(b)
    ensures IsValidTile(b, rook) && At(b, rook).Some? && At(b, rook).value.pieceType == Rook
    ensures QuietMove(rook, target) in RookMoves(b, rook, At(b, rook).value)
  {
    RookPathClear(b, rook, target);
    assert IsEmptyTile(b, target);
    RookReaches(b, rook, target, At(b, rook).value);
    EmptyTargetIsQuiet(b, rook, target, At(b, rook).value);
  }

  lemma RookPathClear(b: ChessBoard, rook: Coordinates, target: Coordinates)
    requires Advance(rook, target) && RookReady(b)
    ensures ClearPath(b, rook, target)
  {
    ColumnPathClear(b, rook, target);
  }

  /** Upwards along a column the path is clear when every square strictly
      between is vacant. */
  lemma ColumnPathClear(b: ChessBoard, from: Coordinates, t: Coordinates)
    requires from.col == t.col && t.row < from.row
    requires forall r | t.row < r < from.row :: IsVacant(b, Coordinates(r, from.col))
    ensures ClearPath(b, from, t)
  {
    var d := Direction(from, t);
    assert d == Incrementer(-1, 0) && Distance(from, t) == from.row - t.row;
    forall j | 1 <= j < Distance(from, t)
      ensures IsVacant(b, RaySquare(from, d, j))
    {
      RaySquareClosed(from, d, j);
    }
  }

  /** Upwards along a column, a piece on the next square blocks the path to
      any square beyond it. */
  lemma ColumnPathBlocked(b: ChessBoard, from: Coordinates, t: Coordinates)
    requires from.col == t.col && t.row < from.row - 1
    requires !IsVacant(b, Coordinates(from.row - 1, from.col))
    ensures !ClearPath(b, from, t)
  {
    var d := Direction(from, t);
    assert d == Incrementer(-1, 0) && Distance(from, t) == from.row - t.row;
    RaySquareClosed(from, d, 1);
  }

  lemma RookReaches(b: ChessBoard, rook: Coordinates, target: Coordinates, piece: ChessPiece)
    requires ClearPath(b, rook, target) && IsStraightLine(rook, target) && Landable(b, target, piece.team)
    ensures target in Destinations(RookMoves(b, rook, piece))
  {
  }

  lemma EmptyTargetIsQuiet(b: ChessBoard, rook: Coordinates, target: Coordinates, piece: ChessPiece)
    requires target in Destinations(RookMoves(b, rook, piece)) && IsEmptyTile(b, target)
    ensures QuietMove(rook, target) in RookMoves(b, rook, piece)
  {
    var rookMoves := RookMoves(b, rook, piece);
    var i :| 0 <= i < |rookMoves| && rookMoves[i].to == target;
    assert rookMoves[i] == QuietMove(rook, target);
  }

  /** A piece on (6, 0) blocks the rook on (7, 0) from reaching (3, 0). */
  lemma RookBlocked(b: ChessBoard, rook: Coordinates, target: Coordinates, piece: ChessPiece)
    requires Advance(rook, target) && At(b, Coordinates(6, 0)).Some?
    ensures QuietMove(rook, target) !in RookMoves(b, rook, piece)
  {
    ColumnPathBlocked(b, rook, target);
    if QuietMove(rook, target) in RookMoves(b, rook, piece) {
      InDestinations(RookMoves(b, rook, piece), QuietMove(rook, target));
    }
  }

  /** On the starting board the pawn on (6, 0) blocks the rook on (7, 0). */
  lemma InitialRookBlocked(gs: GameState, ext: BoardExtensions, rook: Coordinates, target: Coordinates)
    requires Advance(rook, target) && gs.board == InitialBoard()
    ensures CanCalculate(gs, ext, rook)
    ensures QuietMove(rook, target) !in CalculatePossibleMoves(gs, ext, rook)
  {
    InitialPosition(Coordinates(6, 0));
    InitialPosition(rook);
    var piece := At(gs.board, rook).value;
    RookBlocked(gs.board, rook, target, piece);
    RookPotentialMoves(gs.board, rook, piece, LastMove(gs.moves), ext);
    CanCalculateWhenKingTracked(gs, ext, rook);
    IllegalWhenNotPotential(gs, ext, rook, QuietMove(rook, target));
  }

  /** A move the piece cannot make is not a possible move. */
  lemma IllegalWhenNotPotential(gs: GameState, ext: BoardExtensions, location: Coordinates, m: Move)
    requires CanCalculate(gs, ext, location) && At(gs.board, location).Some?
    requires m !in PotentialMoves(gs.board, location, At(gs.board, location).value, LastMove(gs.moves), ext)
    ensures m !in CalculatePossibleMoves(gs, ext, location)
  {
  }

  /** newGame as written keeps a stale selection. Select a ready rook on
      (7, 0), start a new game, and tap (3, 0): the tap plays the rook's old
      advance on the new board, where the rook stands behind its own pawn and
      the move is not legal. */
  lemma NewGameAsWrittenPlaysStaleMove(gs: GameState, ext: BoardExtensions, rook: Coordinates, target: Coordinates)
    requires Advance(rook, target)
    requires WhosTurn(gs) == White && ActiveKing(gs) != rook && RookReady(gs.board)
    requires !ext.underAttack(ScratchBoard(gs.board, rook, target), ActiveKing(gs), None, Black)
    requires gs.selected != Some(rook) && ClearDefined(gs)
    ensures SelectDefined(gs, ext, rook.row, rook.col)
    ensures var gs0 := Select(gs, ext, rook.row, rook.col);
      SelectionConsistent(gs0, ext) && QuietMove(rook, target) in gs0.possibleMoves.value &&
      !SelectionConsistent(NewGameAsWritten(gs0), ext) &&
      SelectDefined(NewGameAsWritten(gs0), ext, target.row, target.col)
    ensures var gs0 := Select(gs, ext, rook.row, rook.col);
      var gs2 := Select(NewGameAsWritten(gs0), ext, target.row, target.col);
      gs2.moves == gs.moves + [QuietMove(rook, target)] &&
      gs2.board == ext.execute(InitialBoard(), QuietMove(rook, target))
  {
    RookAdvanceLegal(gs, ext, rook, target);
    NonKingMovesHighlightable(gs, ext, rook);
    var gs0 := Select(gs, ext, rook.row, rook.col);
    var ms := CalculatePossibleMoves(gs, ext, rook);
    assert gs0 == gs.(selected := Some(rook), possibleMoves := Some(ms));
    SelectionIrrelevant(gs, ext, rook, gs0.selected, gs0.possibleMoves);
    forall m | m in ms && m.to == target
      ensures m == QuietMove(rook, target)
    {
      OnlyMoveToTarget(gs, ext, rook, target, m);
    }
    StaleTap(NewGameAsWritten(gs0), ext, rook, target, ms);
  }

  /** A tap on (3, 0) of a fresh board whose stale selection is the rook on
      (7, 0) plays the listed advance. */
  lemma StaleTap(g: GameState, ext: BoardExtensions, rook: Coordinates, target: Coordinates, ms: seq<Move>)
    requires Advance(rook, target) && g.board == InitialBoard() && g.turn == 1
    requires g.selected == Some(rook) && g.possibleMoves == Some(ms)
    requires QuietMove(rook, target) in ms
    requires forall m | m in ms && m.to == target :: m == QuietMove(rook, target)
    requires Highlightable(g.board, ms)
    ensures !SelectionConsistent(g, ext)
    ensures SelectDefined(g, ext, target.row, target.col)
    ensures Select(g, ext, target.row, target.col).moves == g.moves + [QuietMove(rook, target)]
    ensures Select(g, ext, target.row, target.col).board == ext.execute(InitialBoard(), QuietMove(rook, target))
  {
    InitialRookBlocked(g, ext, rook, target);
    InitialPosition(target);
    assert !CanSelect(g, target);
    StaleMoveFound(g, rook, target, ms);
    TapPlaysFoundMove(g, ext, rook, target, QuietMove(rook, target));
  }

  /** The only listed move onto the target is the one `getMove` finds. */
  lemma StaleMoveFound(g: GameState, rook: Coordinates, target: Coordinates, ms: seq<Move>)
    requires Advance(rook, target) && g.possibleMoves == Some(ms)
    requires QuietMove(rook, target) in ms
    requires forall m | m in ms && m.to == target :: m == QuietMove(rook, target)
    ensures GetMove(g, rook, target) == Some(QuietMove(rook, target))
  {
    assert Matches(QuietMove(rook, target), rook, target);
  }

  /** A tap that neither deselects nor selects, with a move found from the
      selected square, plays that move. */
  lemma TapPlaysFoundMove(g: GameState, ext: BoardExtensions, from: Coordinates, c: Coordinates, m: Move)
    requires g.selected == Some(from) && from != c && IsValidTile(g.board, c) && !CanSelect(g, c)
    requires GetMove(g, from, c) == Some(m) && ClearDefined(g)
    ensures SelectDefined(g, ext, c.row, c.col)
    ensures Select(g, ext, c.row, c.col).moves == g.moves + [m]
    ensures Select(g, ext, c.row, c.col).board == ext.execute(g.board, m)
  {
    assert Coordinates(c.row, c.col) == c;
    var res := MakeMove(g, ext, from, c);
    assert res.0 && res.1.moves == g.moves + [m] && res.1.board == ext.execute(g.board, m);
  }

  /** The rook's possible moves hold one move to each destination. */
  lemma OnlyMoveToTarget(gs: GameState, ext: BoardExtensions, rook: Coordinates, target: Coordinates, m: Move)
    requires Advance(rook, target) && RookReady(gs.board) && CanCalculate(gs, ext, rook)
    requires m in CalculatePossibleMoves(gs, ext, rook) && m.to == target
    ensures m == QuietMove(rook, target)
  {
    var piece := At(gs.board, rook).value;
    RookPotentialMoves(gs.board, rook, piece, LastMove(gs.moves), ext);
    assert SimpleMoveFrom(gs.board, rook, m);
  }

  /** A position with a lone white rook on (7, 0) and the white king on (7, 4),
      white to move and nothing selected. */
  function RookAndKing(): GameState {
    var b := SetTile(SetTile(EmptyBoard(), Coordinates(7, 0), Some(ChessPiece(25, White, Rook, false))),
                     Coordinates(7, 4), Some(ChessPiece(29, White, King, false)));
    GameState(b, 1, [], Coordinates(7, 4), Coordinates(0, 4), None, None, 32)
  }

  /** An opponent that attacks nothing. */
  function Harmless(): BoardExtensions {
    BoardExtensions((b, c, ignoring, team) => false, (b, c, ri, ci, t, team) => true, (b, m) => b)
  }

  /** RookAndKing against Harmless meets every condition of the stale-move
      scenario. */
  lemma StaleMoveScenarioExists()
    ensures var gs := RookAndKing();
      WhosTurn(gs) == White && ActiveKing(gs) != Coordinates(7, 0) && RookReady(gs.board) &&
      gs.selected != Some(Coordinates(7, 0)) && ClearDefined(gs) &&
      !Harmless().underAttack(ScratchBoard(gs.board, Coordinates(7, 0), Coordinates(3, 0)), ActiveKing(gs), None, Black)
  {
  }

}
