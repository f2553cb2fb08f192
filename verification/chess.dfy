/** Chess/Model/Chess.swift: the game itself. It holds the board, the turn
    counter, the move history, the tracked king squares, the current selection
    with its possible moves, and the piece id counter. It sets up a new game,
    handles a tap on a square (select, deselect or move), lists a piece's legal
    moves, and classifies the position. */
module Chess {
  import opened Optional
  import opened Pieces
  import opened Util
  import opened Board
  import opened Geometry
  import opened Movement
  import Grid

  /** `Chess.State`. */
  datatype State = InProgress | Check | Checkmate | Draw

  const WhiteBackRow: int := 7
  const BlackBackRow: int := 0
  const KingColumn: int := 4

  /** The stored properties of `struct Chess`. The tiles' highlight flags are
      display state and are left out. */
  datatype GameState = GameState(
    board: ChessBoard,
    turn: int,
    moves: seq<Move>,
    whiteKingLocation: Coordinates,
    blackKingLocation: Coordinates,
    selected: Option<Coordinates>,
    possibleMoves: Option<seq<Move>>,
    chessPieceCounter: int)

  // ---------------------------------------------------------------------------
  // Turns
  // ---------------------------------------------------------------------------

  /** White moves on odd turns, black on even ones: black exactly when
      halving the turn, rounding towards zero as Swift does, loses nothing. */
  function WhosTurn(gs: GameState): (t: Team)
    ensures t == Black <==> 2 * TruncatedHalf(gs.turn) == gs.turn
  {
    if gs.turn % 2 == 0 then Black else White
  }

  lemma TurnsAlternate(gs: GameState)
    ensures WhosTurn(gs.(turn := gs.turn + 1)) == OpposingTeam(WhosTurn(gs))
  {
  }

  /** `Int(ceil(Double(n) / 2.0))`: the least integer not below n / 2. */
  function CeilHalf(n: int): (r: int)
    ensures n <= 2 * r < n + 2
  {
    if n >= 0 then (n + 1) / 2 else -((-n) / 2)
  }

  /** Swift's integer `n / 2`, which rounds towards zero. */
  function TruncatedHalf(n: int): (r: int)
    ensures n >= 0 ==> 2 * r <= n < 2 * r + 2
    ensures n < 0 ==> 2 * r - 2 < n <= 2 * r
  {
    if n >= 0 then n / 2 else -((-n) / 2)
  }

  /** Moves white has made: `ceil((turn - 1) / 2)`. */
  function WhiteTurns(gs: GameState): int {
    CeilHalf(gs.turn - 1)
  }

  /** Moves black has made: `(turn - 1) / 2`. */
  function BlackTurns(gs: GameState): int {
    TruncatedHalf(gs.turn - 1)
  }

  /** From the first turn on, the two counts add up to the moves played, and
      white is one move ahead exactly when it is black's turn. */
  lemma TurnCounts(gs: GameState)
    requires gs.turn >= 1
    ensures WhiteTurns(gs) + BlackTurns(gs) == gs.turn - 1
    ensures WhiteTurns(gs) == BlackTurns(gs) + (if WhosTurn(gs) == Black then 1 else 0)
  {
  }

  function KingLocation(gs: GameState, team: Team): Coordinates {
    if team == White then gs.whiteKingLocation else gs.blackKingLocation
  }

  /** The tracked square of the king of the side to move. */
  function ActiveKing(gs: GameState): Coordinates {
    KingLocation(gs, WhosTurn(gs))
  }

  /** `moves.last`. */
  function LastMove(moves: seq<Move>): Option<Move> {
    if |moves| == 0 then None else Some(moves[|moves| - 1])
  }

  // ---------------------------------------------------------------------------
  // Setting up
  // ---------------------------------------------------------------------------

  /** `tileType`: light when row + col is even. Swift's remainder can be
      negative where Dafny's is not, but both are zero exactly for even sums. */
  function TileTypeAt(row: int, col: int): TileType {
    if (row + col) % 2 == 0 then Light else Dark
  }

  /** Neighbouring tiles along a row or a column differ in colour, diagonal
      neighbours share it, and the corner on white's left is dark. */
  lemma TileColoursAlternate(row: int, col: int)
    ensures TileTypeAt(row, col) != TileTypeAt(row, col + 1)
    ensures TileTypeAt(row, col) != TileTypeAt(row + 1, col)
    ensures TileTypeAt(row, col) == TileTypeAt(row + 1, col + 1)
    ensures TileTypeAt(WhiteBackRow, 0) == Dark
  {
  }

  /** The id generateBoard gives the tile on (row, col): its row-major index. */
  function TileId(row: int, col: int): int {
    row * BoardSize + col
  }

  lemma TileIdsDistinct(b: ChessBoard, c: Coordinates, d: Coordinates)
    requires IsValidTile(b, c) && IsValidTile(b, d)
    ensures 0 <= TileId(c.row, c.col) < 64
    ensures TileId(c.row, c.col) == TileId(d.row, d.col) <==> c == d
  {
  }

  const BackRowTypes: seq<PieceType> := [Rook, Knight, Bishop, Queen, King, Bishop, Knight, Rook]

  /** generateBackRow: the counter advances by eight and the pieces take the
      ids `counter + 1` to `counter + 8`. */
  function BackRow(counter: int, team: Team): (row: seq<ChessPiece>)
    ensures |row| == BoardSize
    ensures forall c | 0 <= c < |row| ::
      row[c].team == team && row[c].pieceType == BackRowTypes[c] && !row[c].hasMoved &&
      counter < row[c].id <= counter + BoardSize
    ensures forall i, j | 0 <= i < j < |row| :: row[i].id < row[j].id
  {
    seq(BoardSize, c requires 0 <= c < BoardSize => ChessPiece(counter + 1 + c, team, BackRowTypes[c], false))
  }

  /** generatePawnRow: eight pawns, the counter advancing before each. */
  function PawnRow(counter: int, team: Team): (row: seq<ChessPiece>)
    ensures |row| == BoardSize
    ensures forall c | 0 <= c < |row| ::
      row[c].team == team && row[c].pieceType == Pawn && !row[c].hasMoved &&
      counter < row[c].id <= counter + BoardSize
    ensures forall i, j | 0 <= i < j < |row| :: row[i].id < row[j].id
  {
    seq(BoardSize, c requires 0 <= c < BoardSize => ChessPiece(counter + 1 + c, team, Pawn, false))
  }

  /** generateBoard: every tile empty. */
  function EmptyBoard(): (b: ChessBoard)
    ensures forall c | IsValidTile(b, c) :: At(b, c).None?
  {
    seq(BoardSize, r => seq(BoardSize, c => None))
  }

  /** `board[row][col].chessPiece = pieces[col]` for every column. */
  function PlaceRow(b: ChessBoard, row: int, pieces: seq<ChessPiece>): (r: ChessBoard)
    requires 0 <= row < BoardSize && |pieces| == BoardSize
    ensures forall c | IsValidTile(b, c) :: At(r, c) == if c.row == row then Some(pieces[c.col]) else At(b, c)
  {
    b[row := seq(BoardSize, c requires 0 <= c < BoardSize => Some(pieces[c]))]
  }

  /** newGame's board and the final piece counter: black's back row and
      pawns, then white's pawns and back row, the counter threaded from 0. */
  function SetUp(): (ChessBoard, int) {
    var counter0 := 0;
    var b0 := PlaceRow(EmptyBoard(), BlackBackRow, BackRow(counter0, Black));
    var counter1 := counter0 + 8;
    var b1 := PlaceRow(b0, 1, PawnRow(counter1, Black));
    var counter2 := counter1 + 8;
    var b2 := PlaceRow(b1, 6, PawnRow(counter2, White));
    var counter3 := counter2 + 8;
    var b3 := PlaceRow(b2, WhiteBackRow, BackRow(counter3, White));
    (b3, counter3 + 8)
  }

  function InitialBoard(): ChessBoard {
    SetUp().0
  }

  /** The starting position square by square: black on rows 0 and 1, white
      on rows 6 and 7, the middle empty; no piece has moved. */
  lemma InitialPosition(c: Coordinates)
    requires IsValidTile(InitialBoard(), c)
    ensures At(InitialBoard(), c).Some? <==> c.row in {0, 1, 6, 7}
    ensures At(InitialBoard(), c).Some? ==>
      var p := At(InitialBoard(), c).value;
      !p.hasMoved &&
      (p.team == Black <==> c.row < 2) &&
      (p.pieceType == Pawn <==> c.row in {1, 6}) &&
      (c.row in {0, 7} ==> p.pieceType == BackRowTypes[c.col])
  {
  }

  /** Every piece has its own id, from 1 up to the counter newGame leaves. */
  lemma InitialIdsDistinct(c: Coordinates, d: Coordinates)
    requires IsValidTile(InitialBoard(), c) && IsValidTile(InitialBoard(), d)
    requires At(InitialBoard(), c).Some? && At(InitialBoard(), d).Some?
    ensures 1 <= At(InitialBoard(), c).value.id <= SetUp().1 == 32
    ensures At(InitialBoard(), c).value.id == At(InitialBoard(), d).value.id <==> c == d
  {
  }

  /** The king squares newGame records hold the two kings. */
  lemma InitialKings()
    ensures At(InitialBoard(), Coordinates(WhiteBackRow, KingColumn)) == Some(ChessPiece(29, White, King, false))
    ensures At(InitialBoard(), Coordinates(BlackBackRow, KingColumn)) == Some(ChessPiece(5, Black, King, false))
  {
  }

  /** newGame as written: it resets the board, the turn, the counter and the
      king squares, but keeps the selection, its possible moves and the move
      history of the game before. */
  function NewGameAsWritten(gs: GameState): (r: GameState)
    ensures r.selected == gs.selected && r.possibleMoves == gs.possibleMoves && r.moves == gs.moves
    ensures r.board == InitialBoard() && r.turn == 1 && r.chessPieceCounter == 32
    ensures r.whiteKingLocation == Coordinates(WhiteBackRow, KingColumn)
    ensures r.blackKingLocation == Coordinates(BlackBackRow, KingColumn)
    ensures At(r.board, r.whiteKingLocation) == Some(ChessPiece(29, White, King, false))
    ensures At(r.board, r.blackKingLocation) == Some(ChessPiece(5, Black, King, false))
  {
    var (board, counter) := SetUp();
    InitialKings();
    InitialIdsDistinct(Coordinates(0, 0), Coordinates(0, 0));
    gs.(board := board, turn := 1, chessPieceCounter := counter,
        whiteKingLocation := Coordinates(WhiteBackRow, KingColumn),
        blackKingLocation := Coordinates(BlackBackRow, KingColumn))
  }

  /** newGame with the selection, its possible moves and the history cleared. */
  function NewGame(gs: GameState): (r: GameState)
    ensures r.selected.None? && r.possibleMoves.None? && r.moves == []
    ensures r.board == InitialBoard() && r.turn == 1 && WhosTurn(r) == White
    ensures r == NewGameAsWritten(gs).(selected := None, possibleMoves := None, moves := [])
  {
    var (board, counter) := SetUp();
    GameState(board, 1, [], Coordinates(WhiteBackRow, KingColumn), Coordinates(BlackBackRow, KingColumn),
              None, None, counter)
  }

  // ---------------------------------------------------------------------------
  // Possible moves
  // ---------------------------------------------------------------------------

  /** The switch of calculatePossibleMoves over the piece's kind. */
  function PotentialMoves(b: ChessBoard, location: Coordinates, piece: ChessPiece, lastMove: Option<Move>, ext: BoardExtensions): seq<Move>
    requires piece.pieceType == Pawn ==> PawnMovesDefined(b, location, piece, lastMove)
  {
    match piece.pieceType
    case Pawn => PawnMoves(b, location, piece, lastMove)
    case Rook => RookMoves(b, location, piece)
    case Knight => KnightMoves(b, location, piece)
    case Bishop => BishopMoves(b, location, piece)
    case Queen => QueenMoves(b, location, piece)
    case King => KingMoves(b, location, piece, ext)
  }

  lemma InDestinations(ms: seq<Move>, m: Move)
    requires m in ms
    ensures m.to in Destinations(ms)
  {
    var i :| 0 <= i < |ms| && ms[i] == m;
    assert Destinations(ms)[i] == m.to;
  }

  lemma SimpleMoveShape(b: ChessBoard, from: Coordinates, m: Move)
    requires SimpleMoveFrom(b, from, m)
    ensures m.from == from && !m.IsCastle()
  {
    MoveShapesDisjoint(m);
  }

  /** Every potential move leaves `location`; all but castles end on another
      on-board square; only kings castle. */
  lemma PotentialMovesShape(b: ChessBoard, location: Coordinates, piece: ChessPiece, lastMove: Option<Move>, ext: BoardExtensions, m: Move)
    requires piece.pieceType == Pawn ==> PawnMovesDefined(b, location, piece, lastMove)
    requires m in PotentialMoves(b, location, piece, lastMove, ext)
    ensures m.from == location
    ensures !m.IsCastle() ==> IsValidTile(b, m.to) && m.to != location
    ensures m.IsCastle() ==> piece.pieceType == King
  {
    var ms := PotentialMoves(b, location, piece, lastMove, ext);
    match piece.pieceType
    case Pawn =>
    case King =>
      if !m.IsCastle() {
        SimpleMoveShape(b, location, m);
      }
    case _ =>
      SimpleMoveShape(b, location, m);
      InDestinations(ms, m);
  }

  /** What ensureNoSelfCheck looks at: the board, the tracked square of the
      king of the side to move, and that side. */
  datatype Mover = Mover(board: ChessBoard, king: Coordinates, team: Team)

  function MoverOf(gs: GameState): Mover {
    Mover(gs.board, ActiveKing(gs), WhosTurn(gs))
  }

  /** The move's square reads in ensureNoSelfCheck: they run unless the king
      itself is moving, and trap off the board. */
  predicate SelfCheckReadable(p: Mover, m: Move) {
    m.from != p.king ==> IsValidTile(p.board, m.from) && IsValidTile(p.board, m.to)
  }

  /** ensureNoSelfCheck's scratch board: the piece on `from` moved to `to`. */
  function ScratchBoard(b: ChessBoard, from: Coordinates, to: Coordinates): (r: ChessBoard)
    requires IsValidTile(b, from) && IsValidTile(b, to)
    ensures At(r, from).None?
    ensures from != to ==> At(r, to) == At(b, from)
    ensures forall c | IsValidTile(b, c) && c != from && c != to :: At(r, c) == At(b, c)
    ensures Grid.Count(r) == Grid.Count(b) - (if At(b, to).Some? then 1 else 0)
  {
    Grid.RelocateCells(b, (from.row, from.col), (to.row, to.col));
    Grid.RelocateCount(b, (from.row, from.col), (to.row, to.col));
    Grid.Relocate(b, (from.row, from.col), (to.row, to.col))
  }

  /** ensureNoSelfCheck: a move of the king is let through (its squares were
      checked when it was generated); any other move must leave the king of
      the side to move unattacked on the scratch board. */
  predicate NoSelfCheck(p: Mover, ext: BoardExtensions, m: Move)
    requires SelfCheckReadable(p, m)
    ensures p.king == m.from ==> NoSelfCheck(p, ext, m)
    ensures p.king != m.from ==>
      (NoSelfCheck(p, ext, m) <==> !ext.underAttack(ScratchBoard(p.board, m.from, m.to), p.king, None, OpposingTeam(p.team)))
  {
    if p.king != m.from then !ext.underAttack(ScratchBoard(p.board, m.from, m.to), p.king, None, OpposingTeam(p.team))
    else true
  }

  /** `b'` is `b` with the piece on `from` moved to `to`, read tile by tile:
      `from` is empty, `to` holds what stood on `from`, the rest is as on `b`. */
  ghost predicate MovedOnto(b: ChessBoard, from: Coordinates, to: Coordinates, b': ChessBoard)
    requires IsValidTile(b, from) && IsValidTile(b, to)
  {
    At(b', from).None? && (from != to ==> At(b', to) == At(b, from)) &&
    forall c | IsValidTile(b, c) && c != from && c != to :: At(b', c) == At(b, c)
  }

  /** The scratch board is the one board with the piece moved. */
  lemma ScratchBoardUnique(b: ChessBoard, from: Coordinates, to: Coordinates, b': ChessBoard)
    requires IsValidTile(b, from) && IsValidTile(b, to)
    ensures MovedOnto(b, from, to, ScratchBoard(b, from, to))
    ensures MovedOnto(b, from, to, b') <==> b' == ScratchBoard(b, from, to)
  {
    if MovedOnto(b, from, to, b') {
      TilesDetermineBoard(b', ScratchBoard(b, from, to));
    }
  }

  /** ensureNoSelfCheck decided tile by tile: a move of the king passes; any
      other move passes exactly when the own king is not attacked on a board
      that reads like the position with the piece moved. */
  lemma NoSelfCheckOnMovedBoard(p: Mover, ext: BoardExtensions, m: Move, b': ChessBoard)
    requires SelfCheckReadable(p, m)
    ensures p.king == m.from ==> NoSelfCheck(p, ext, m)
    ensures p.king != m.from && MovedOnto(p.board, m.from, m.to, b') ==>
      (NoSelfCheck(p, ext, m) <==> !ext.underAttack(b', p.king, None, OpposingTeam(p.team)))
  {
    if p.king != m.from {
      ScratchBoardUnique(p.board, m.from, m.to, b');
    }
  }

  /** `r` lists some of the entries of `ms`, in the order they have there. */
  predicate Subsequence(r: seq<Move>, ms: seq<Move>)
    decreases |ms|
  {
    r == [] ||
    (ms != [] && ((r[0] == ms[0] && Subsequence(r[1..], ms[1..])) || Subsequence(r, ms[1..])))
  }

  /** `filter { ensureNoSelfCheck(forMove: $0) }`, order preserved. */
  function FilterNoSelfCheck(p: Mover, ext: BoardExtensions, ms: seq<Move>): (r: seq<Move>)
    requires forall m | m in ms :: SelfCheckReadable(p, m)
    ensures forall m :: m in r <==> m in ms && NoSelfCheck(p, ext, m)
    ensures |r| <= |ms|
    ensures Subsequence(r, ms)
  {
    if ms == [] then []
    else
      var rest := FilterNoSelfCheck(p, ext, ms[1..]);
      if NoSelfCheck(p, ext, ms[0]) then [ms[0]] + rest else rest
  }

  /** What calculatePossibleMoves needs in order not to trap: the square is on
      the board, a pawn's generator can read its squares, and the self-check
      test can read the squares of every move it examines. */
  predicate CanCalculate(gs: GameState, ext: BoardExtensions, location: Coordinates) {
    IsValidTile(gs.board, location) &&
    (At(gs.board, location).Some? ==>
      var piece := At(gs.board, location).value;
      (piece.pieceType == Pawn ==> PawnMovesDefined(gs.board, location, piece, LastMove(gs.moves))) &&
      forall m | m in PotentialMoves(gs.board, location, piece, LastMove(gs.moves), ext) :: SelfCheckReadable(MoverOf(gs), m))
  }

  /** The legal moves of the piece on `location`: its potential moves that do
      not leave the own king attacked; none for an empty square. */
  function CalculatePossibleMoves(gs: GameState, ext: BoardExtensions, location: Coordinates): (r: seq<Move>)
    requires CanCalculate(gs, ext, location)
    ensures At(gs.board, location).None? ==> r == []
    ensures forall m :: m in r <==>
      At(gs.board, location).Some? &&
      m in PotentialMoves(gs.board, location, At(gs.board, location).value, LastMove(gs.moves), ext) &&
      NoSelfCheck(MoverOf(gs), ext, m)
  {
    match At(gs.board, location)
    case None => []
    case Some(piece) => FilterNoSelfCheck(MoverOf(gs), ext, PotentialMoves(gs.board, location, piece, LastMove(gs.moves), ext))
  }

  /** A legal move leaves `location`; unless it is a castle it lands on another
      on-board square; unless the king itself moves, the king of the side to
      move is not attacked once the piece has moved. */
  lemma PossibleMovesAreSafe(gs: GameState, ext: BoardExtensions, location: Coordinates, m: Move)
    requires CanCalculate(gs, ext, location)
    requires m in CalculatePossibleMoves(gs, ext, location)
    ensures m.from == location
    ensures !m.IsCastle() ==> IsValidTile(gs.board, m.to) && m.to != location
    ensures m.from != ActiveKing(gs) ==>
      !ext.underAttack(ScratchBoard(gs.board, m.from, m.to), ActiveKing(gs), None, OpposingTeam(WhosTurn(gs)))
  {
    PotentialMovesShape(gs.board, location, At(gs.board, location).value, LastMove(gs.moves), ext, m);
  }

  /** Castles are the only moves that may land off the board, and only kings
      castle; so every on-board square can be calculated when a pawn's squares
      can be read and a king stands on the tracked square of the side to move. */
  lemma CanCalculateWhenKingTracked(gs: GameState, ext: BoardExtensions, location: Coordinates)
    requires IsValidTile(gs.board, location)
    requires At(gs.board, location).Some? && At(gs.board, location).value.pieceType == Pawn ==>
      PawnMovesDefined(gs.board, location, At(gs.board, location).value, LastMove(gs.moves))
    requires At(gs.board, location).Some? && At(gs.board, location).value.pieceType == King ==>
      location == ActiveKing(gs)
    ensures CanCalculate(gs, ext, location)
  {
    if At(gs.board, location).Some? {
      var piece := At(gs.board, location).value;
      forall m | m in PotentialMoves(gs.board, location, piece, LastMove(gs.moves), ext)
        ensures SelfCheckReadable(MoverOf(gs), m)
      {
        PotentialMovesShape(gs.board, location, piece, LastMove(gs.moves), ext, m);
      }
    }
  }

  // ---------------------------------------------------------------------------
  // Moving
  // ---------------------------------------------------------------------------

  predicate Matches(m: Move, from: Coordinates, to: Coordinates) {
    m.from == from && m.to == to
  }

  /** The index of the first move from `from` to `to`, or `|ms|` when there is none. */
  function FirstMatch(ms: seq<Move>, from: Coordinates, to: Coordinates): (i: nat)
    ensures i <= |ms|
    ensures forall j | 0 <= j < i :: !Matches(ms[j], from, to)
    ensures i < |ms| ==> Matches(ms[i], from, to)
  {
    if ms == [] then 0
    else if Matches(ms[0], from, to) then 0
    else 1 + FirstMatch(ms[1..], from, to)
  }

  /** getMove: `possibleMoves?.first(where:)`. */
  function GetMove(gs: GameState, from: Coordinates, to: Coordinates): (r: Option<Move>)
    ensures r.Some? <==> gs.possibleMoves.Some? && exists m | m in gs.possibleMoves.value :: Matches(m, from, to)
    ensures r.Some? ==> r.value in gs.possibleMoves.value && Matches(r.value, from, to)
    ensures r.Some? ==> exists i | 0 <= i < |gs.possibleMoves.value| ::
      gs.possibleMoves.value[i] == r.value && forall j | 0 <= j < i :: !Matches(gs.possibleMoves.value[j], from, to)
  {
    match gs.possibleMoves
    case None => None
    case Some(ms) =>
      var i := FirstMatch(ms, from, to);
      if i < |ms| then Some(ms[i]) else None
  }

  /** trackKingLocation: black's king square is checked first; a square that
      is neither leaves both unchanged. */
  function TrackKingLocation(gs: GameState, from: Coordinates, to: Coordinates): (r: GameState)
    ensures r.(whiteKingLocation := gs.whiteKingLocation, blackKingLocation := gs.blackKingLocation) == gs
    ensures from == gs.blackKingLocation ==>
      r.blackKingLocation == to && r.whiteKingLocation == gs.whiteKingLocation
    ensures from != gs.blackKingLocation && from == gs.whiteKingLocation ==>
      r.whiteKingLocation == to && r.blackKingLocation == gs.blackKingLocation
    ensures from != gs.blackKingLocation && from != gs.whiteKingLocation ==> r == gs
  {
    if from == gs.blackKingLocation then gs.(blackKingLocation := to)
    else if from == gs.whiteKingLocation then gs.(whiteKingLocation := to)
    else gs
  }

  /** move(_:to:): plays the first listed move from `from` to `to`, if any:
      the turn advances, a king's tracked square follows it, the board is
      `execute`d and the move is appended to the history. Otherwise nothing
      changes and the result is false. */
  function MakeMove(gs: GameState, ext: BoardExtensions, from: Coordinates, to: Coordinates): (res: (bool, GameState))
    ensures !res.0 ==> res.1 == gs
    ensures res.0 <==> gs.possibleMoves.Some? && exists m | m in gs.possibleMoves.value :: Matches(m, from, to)
    ensures res.0 ==>
      var m := GetMove(gs, from, to).value;
      var r := res.1;
      m in gs.possibleMoves.value && Matches(m, from, to) &&
      r.turn == gs.turn + 1 && r.moves == gs.moves + [m] && r.board == ext.execute(gs.board, m) &&
      r.selected == gs.selected && r.possibleMoves == gs.possibleMoves && r.chessPieceCounter == gs.chessPieceCounter &&
      r.whiteKingLocation == (if from == gs.whiteKingLocation && from != gs.blackKingLocation then to else gs.whiteKingLocation) &&
      r.blackKingLocation == (if from == gs.blackKingLocation then to else gs.blackKingLocation)
  {
    match GetMove(gs, from, to)
    case None => (false, gs)
    case Some(m) =>
      var g1 := gs.(turn := gs.turn + 1);
      var g2 := if from == g1.blackKingLocation || from == g1.whiteKingLocation then TrackKingLocation(g1, from, to) else g1;
      (true, g2.(board := ext.execute(g2.board, m), moves := g2.moves + [m]))
  }

  // ---------------------------------------------------------------------------
  // Selecting
  // ---------------------------------------------------------------------------

  /** canSelect: the square holds a piece of the side to move. */
  predicate CanSelect(gs: GameState, c: Coordinates)
    requires IsValidTile(gs.board, c)
    ensures CanSelect(gs, c) <==> !IsEmptyTile(gs.board, c) && !ContainsOpposingTeam(gs.board, c, WhosTurn(gs))
  {
    At(gs.board, c).Some? && At(gs.board, c).value.team == WhosTurn(gs)
  }

  /** highlightMoveTos writes the tile of every destination, which traps
      off the board. */
  predicate Highlightable(b: ChessBoard, ms: seq<Move>) {
    forall m | m in ms :: IsValidTile(b, m.to)
  }

  /** Clearing a selection un-highlights the selected tile and, through the
      `didSet` of `possibleMoves`, the destinations of its possible moves. */
  predicate ClearDefined(gs: GameState) {
    gs.selected.Some? ==>
      IsValidTile(gs.board, gs.selected.value) &&
      (gs.possibleMoves.Some? ==> Highlightable(gs.board, gs.possibleMoves.value))
  }

  /** What select needs in order not to trap. A deselecting tap clears the
      selection. Any other tap reads the tapped square; selecting it clears
      the old selection, calculates the new square's moves and highlights
      them; a played move clears the selection. */
  predicate SelectDefined(gs: GameState, ext: BoardExtensions, row: int, col: int) {
    var c := Coordinates(row, col);
    if gs.selected == Some(c) then ClearDefined(gs)
    else
      IsValidTile(gs.board, c) &&
      (CanSelect(gs, c) ==>
        ClearDefined(gs) && CanCalculate(gs, ext, c) && Highlightable(gs.board, CalculatePossibleMoves(gs, ext, c))) &&
      (!CanSelect(gs, c) && gs.selected.Some? && GetMove(gs, gs.selected.value, c).Some? ==> ClearDefined(gs))
  }

  /** A tap on the selected square clears the selection. A tap on a piece of
      the side to move selects it with its legal moves. Otherwise, with a
      selection, a move from the selected square to the tapped one is tried and
      the selection cleared when it is played. The `didSet` observers are
      folded in: clearing the selection clears the possible moves, and setting
      it calculates them. A tap that neither deselects nor selects plays the
      first listed move from the selected square to the tapped one when there
      is one; otherwise it changes nothing and the selection is kept. */
  function Select(gs: GameState, ext: BoardExtensions, row: int, col: int): (r: GameState)
    requires SelectDefined(gs, ext, row, col)
    ensures var c := Coordinates(row, col);
      gs.selected == Some(c) ==> r == gs.(selected := None, possibleMoves := None)
    ensures var c := Coordinates(row, col);
      gs.selected != Some(c) && CanSelect(gs, c) ==>
        r == gs.(selected := Some(c), possibleMoves := Some(CalculatePossibleMoves(gs, ext, c)))
    ensures r.turn == gs.turn || r.turn == gs.turn + 1
    ensures r.turn == gs.turn ==> r.board == gs.board && r.moves == gs.moves
    ensures r.turn != gs.turn ==>
      gs.selected.Some? && gs.possibleMoves.Some? && r.selected.None? && r.possibleMoves.None? &&
      exists m | m in gs.possibleMoves.value ::
        Matches(m, gs.selected.value, Coordinates(row, col)) &&
        r.moves == gs.moves + [m] && r.board == ext.execute(gs.board, m)
    ensures var c := Coordinates(row, col);
      gs.selected.Some? && gs.selected != Some(c) && !CanSelect(gs, c) ==>
        (r.turn == gs.turn + 1 <==> GetMove(gs, gs.selected.value, c).Some?)
    ensures var c := Coordinates(row, col);
      r.turn == gs.turn && gs.selected != Some(c) && !CanSelect(gs, c) ==> r == gs
    ensures r.turn != gs.turn ==>
      var c := Coordinates(row, col);
      var t := TrackKingLocation(gs, gs.selected.value, c);
      r.moves == gs.moves + [GetMove(gs, gs.selected.value, c).value] &&
      r.whiteKingLocation == t.whiteKingLocation && r.blackKingLocation == t.blackKingLocation &&
      r.chessPieceCounter == gs.chessPieceCounter
  {
    var c := Coordinates(row, col);
    if gs.selected == Some(c) then
      gs.(selected := None, possibleMoves := None)
    else if CanSelect(gs, c) then
      gs.(selected := Some(c), possibleMoves := Some(CalculatePossibleMoves(gs, ext, c)))
    else if gs.selected.Some? then
      var (moved, g) := MakeMove(gs, ext, gs.selected.value, c);
      if moved then g.(selected := None, possibleMoves := None) else gs
    else
      gs
  }

  /** The selection and its possible moves agree with the position: both are
      absent, or the possible moves are those calculated for the selected
      square now. */
  predicate SelectionConsistent(gs: GameState, ext: BoardExtensions) {
    (gs.selected.None? ==> gs.possibleMoves.None?) &&
    (gs.selected.Some? ==>
      CanCalculate(gs, ext, gs.selected.value) &&
      gs.possibleMoves == Some(CalculatePossibleMoves(gs, ext, gs.selected.value)))
  }

  /** The possible moves of a square do not depend on what is selected. */
  lemma SelectionIrrelevant(gs: GameState, ext: BoardExtensions, c: Coordinates, selected: Option<Coordinates>, possibleMoves: Option<seq<Move>>)
    requires CanCalculate(gs, ext, c)
    ensures var g := gs.(selected := selected, possibleMoves := possibleMoves);
      CanCalculate(g, ext, c) && CalculatePossibleMoves(g, ext, c) == CalculatePossibleMoves(gs, ext, c)
  {
  }

  lemma SelectKeepsSelectionConsistent(gs: GameState, ext: BoardExtensions, row: int, col: int)
    requires SelectionConsistent(gs, ext) && SelectDefined(gs, ext, row, col)
    ensures SelectionConsistent(Select(gs, ext, row, col), ext)
  {
    var c := Coordinates(row, col);
    if gs.selected != Some(c) && CanSelect(gs, c) {
      SelectionIrrelevant(gs, ext, c, Some(c), Some(CalculatePossibleMoves(gs, ext, c)));
    }
  }

  /** With a consistent selection, every move a tap plays is a legal move of
      the selected piece in the current position. */
  lemma ConsistentSelectPlaysLegalMove(gs: GameState, ext: BoardExtensions, row: int, col: int)
    requires SelectionConsistent(gs, ext) && SelectDefined(gs, ext, row, col)
    requires Select(gs, ext, row, col).turn != gs.turn
    ensures gs.selected.Some?
    ensures exists m | m in CalculatePossibleMoves(gs, ext, gs.selected.value) ::
      Select(gs, ext, row, col).moves == gs.moves + [m] && m.to == Coordinates(row, col)
  {
  }

  /** With a consistent selection, a tap that neither deselects nor selects
      plays a move exactly when the selected piece has a legal move onto the
      tapped square, and otherwise leaves the game as it was. */
  lemma ConsistentTapPlaysIffLegal(gs: GameState, ext: BoardExtensions, row: int, col: int)
    requires SelectionConsistent(gs, ext) && SelectDefined(gs, ext, row, col)
    requires gs.selected.Some? && gs.selected != Some(Coordinates(row, col))
    requires !CanSelect(gs, Coordinates(row, col))
    ensures Select(gs, ext, row, col).turn == gs.turn + 1 <==>
      exists m | m in CalculatePossibleMoves(gs, ext, gs.selected.value) ::
        Matches(m, gs.selected.value, Coordinates(row, col))
    ensures Select(gs, ext, row, col).turn != gs.turn + 1 ==> Select(gs, ext, row, col) == gs
  {
  }

  /** A piece other than a king has no castles, so all its possible moves
      land on the board and can be highlighted. */
  lemma NonKingMovesHighlightable(gs: GameState, ext: BoardExtensions, location: Coordinates)
    requires CanCalculate(gs, ext, location)
    requires At(gs.board, location).Some? ==> At(gs.board, location).value.pieceType != King
    ensures Highlightable(gs.board, CalculatePossibleMoves(gs, ext, location))
  {
    forall m | m in CalculatePossibleMoves(gs, ext, location)
      ensures IsValidTile(gs.board, m.to)
    {
      PossibleMovesAreSafe(gs, ext, location, m);
      PotentialMovesShape(gs.board, location, At(gs.board, location).value, LastMove(gs.moves), ext, m);
    }
  }

  /** The corrected newGame starts with a consistent, empty selection, so its
      first tap never plays a move. */
  lemma NewGameSelectsAfresh(gs: GameState, ext: BoardExtensions, row: int, col: int)
    requires SelectDefined(NewGame(gs), ext, row, col)
    ensures SelectionConsistent(NewGame(gs), ext)
    ensures Select(NewGame(gs), ext, row, col).board == InitialBoard()
    ensures Select(NewGame(gs), ext, row, col).moves == []
  {
  }

  // ---------------------------------------------------------------------------
  // The position
  // ---------------------------------------------------------------------------

  /** gameInCheck for the side to move: its tracked king square is attacked
      by the other side. */
  predicate InCheck(gs: GameState, ext: BoardExtensions)
    ensures InCheck(gs, ext) <==>
      ext.underAttack(gs.board, if gs.turn % 2 == 0 then gs.blackKingLocation else gs.whiteKingLocation,
                      None, if gs.turn % 2 == 0 then White else Black)
  {
    ext.underAttack(gs.board, ActiveKing(gs), None, OpposingTeam(WhosTurn(gs)))
  }

  /** At the start of a game, white is to move and the check test asks
      whether black attacks (7, 4), where the white king stands. */
  lemma NewGameInCheck(gs: GameState, ext: BoardExtensions)
    ensures At(NewGame(gs).board, Coordinates(WhiteBackRow, KingColumn)) == Some(ChessPiece(29, White, King, false))
    ensures InCheck(NewGame(gs), ext) <==> ext.underAttack(InitialBoard(), Coordinates(WhiteBackRow, KingColumn), None, Black)
  {
    InitialKings();
  }

  predicate TeamPiece(b: ChessBoard, c: Coordinates, team: Team)
    requires IsValidTile(b, c)
  {
    At(b, c).Some? && At(b, c).value.team == team
  }

  /** canMove calculates the moves of the tracked king square and of the
      team's pieces. */
  ghost predicate CanMoveDefined(gs: GameState, ext: BoardExtensions, team: Team) {
    CanCalculate(gs, ext, KingLocation(gs, team)) &&
    forall c | IsValidTile(gs.board, c) && TeamPiece(gs.board, c, team) :: CanCalculate(gs, ext, c)
  }

  /** The piece on `c` has a legal move. */
  ghost predicate MovesFrom(gs: GameState, ext: BoardExtensions, c: Coordinates) {
    CanCalculate(gs, ext, c) && |CalculatePossibleMoves(gs, ext, c)| > 0
  }

  /** The team has a legal move: from the tracked king square, or from any
      square holding one of its pieces. */
  ghost predicate HasLegalMove(gs: GameState, ext: BoardExtensions, team: Team) {
    MovesFrom(gs, ext, KingLocation(gs, team)) ||
    exists c | IsValidTile(gs.board, c) && TeamPiece(gs.board, c, team) :: MovesFrom(gs, ext, c)
  }

  /** canMove's scan: every square row by row, stopping at the first square
      satisfying `p`. */
  method AnySquare(b: ChessBoard, p: Coordinates -> bool) returns (r: bool)
    ensures r <==> exists c | IsValidTile(b, c) :: p(c)
  {
    var row := 0;
    while row < |b|
      invariant 0 <= row <= BoardSize
      invariant forall c | IsValidTile(b, c) && c.row < row :: !p(c)
    {
      var col := 0;
      while col < |b[0]|
        invariant 0 <= col <= BoardSize
        invariant forall c | IsValidTile(b, c) && c.row < row :: !p(c)
        invariant forall j | 0 <= j < col :: !p(Coordinates(row, j))
      {
        if p(Coordinates(row, col)) {
          return true;
        }
        col := col + 1;
      }
      forall c | IsValidTile(b, c) && c.row <= row
        ensures !p(c)
      {
        if c.row == row {
          assert c == Coordinates(row, c.col);
        }
      }
      row := row + 1;
    }
    return false;
  }

  /** canMove: the tracked king square first, then every square holding one
      of the team's pieces. */
  method CanMove(gs: GameState, ext: BoardExtensions, team: Team) returns (r: bool)
    requires CanMoveDefined(gs, ext, team)
    ensures r <==> HasLegalMove(gs, ext, team)
  {
    var kingLocation := if team == White then gs.whiteKingLocation else gs.blackKingLocation;
    if |CalculatePossibleMoves(gs, ext, kingLocation)| > 0 {
      return true;
    }
    var movable := c =>
      IsValidTile(gs.board, c) && TeamPiece(gs.board, c, team) &&
      CanCalculate(gs, ext, c) && |CalculatePossibleMoves(gs, ext, c)| > 0;
    r := AnySquare(gs.board, movable);
    assert forall c | IsValidTile(gs.board, c) :: movable(c) == (TeamPiece(gs.board, c, team) && MovesFrom(gs, ext, c));
  }

  /** The `(inCheck, noMoves)` switch of `state`. */
  function Classify(inCheck: bool, noMoves: bool): (s: State)
    ensures s == Checkmate <==> inCheck && noMoves
    ensures s == Check <==> inCheck && !noMoves
    ensures s == Draw <==> !inCheck && noMoves
    ensures s == InProgress <==> !inCheck && !noMoves
  {
    match (inCheck, noMoves)
    case (false, false) => InProgress
    case (true, false) => Check
    case (true, true) => Checkmate
    case (false, true) => Draw
  }

  /** state: checkmate when the side to move is in check and has no legal
      move, a draw when it has none but is not in check, check when it is in
      check and can move, and in progress otherwise. */
  method GetState(gs: GameState, ext: BoardExtensions) returns (s: State)
    requires CanMoveDefined(gs, ext, WhosTurn(gs))
    ensures s == Checkmate <==> InCheck(gs, ext) && !HasLegalMove(gs, ext, WhosTurn(gs))
    ensures s == Check <==> InCheck(gs, ext) && HasLegalMove(gs, ext, WhosTurn(gs))
    ensures s == Draw <==> !InCheck(gs, ext) && !HasLegalMove(gs, ext, WhosTurn(gs))
    ensures s == InProgress <==> !InCheck(gs, ext) && HasLegalMove(gs, ext, WhosTurn(gs))
  {
    var inCheck := ext.underAttack(gs.board, ActiveKing(gs), None, OpposingTeam(WhosTurn(gs)));
    var canMove := CanMove(gs, ext, WhosTurn(gs));
    s := Classify(inCheck, !canMove);
  }
}
