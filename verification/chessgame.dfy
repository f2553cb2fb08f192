/** Chess/Model/ChessGame.swift: the first, rule-free version of the game. A
    tap selects a piece, and the next tap moves the selected piece to the
    tapped square, whatever stands there. Its `Team`, `PieceType` and
    `Coordinates` are declared exactly like those of Chess.swift and are
    shared with the Pieces module; its pieces carry no `hasMoved` flag. */
module ChessGame {
  import opened Optional
  import opened Pieces
  import Grid
  import Board
  import Chess

  datatype Piece = Piece(id: int, team: Team, pieceType: PieceType)

  const BoardSize: nat := 8

  /** `[[ChessPiece?]]`, 8 rows of 8. */
  type GameBoard = b: seq<seq<Option<Piece>>>
    | |b| == BoardSize && forall r | 0 <= r < |b| :: |b[r]| == BoardSize
    witness seq(BoardSize, r => seq(BoardSize, c => None))

  datatype Game = Game(board: GameBoard, chessPieceCounter: int, selected: Option<Coordinates>)

  predicate OnBoard(c: Coordinates) {
    0 <= c.row < BoardSize && 0 <= c.col < BoardSize
  }

  function At(b: GameBoard, c: Coordinates): Option<Piece>
    requires OnBoard(c)
  {
    b[c.row][c.col]
  }

  /** A piece of Chess.swift without its `hasMoved` flag. */
  function Strip(p: ChessPiece): Piece {
    Piece(p.id, p.team, p.pieceType)
  }

  /** The starting position: black on rows 0 and 1, white on rows 6 and 7,
      pawns on rows 1 and 6, back rows in the order rook, knight, bishop,
      queen, king, bishop, knight, rook; ids 1 to 32, all different. */
  ghost predicate StartingLayout(b: GameBoard) {
    (forall c | OnBoard(c) :: At(b, c).Some? <==> c.row in {0, 1, 6, 7}) &&
    (forall c | OnBoard(c) && At(b, c).Some? ::
      (At(b, c).value.team == Black <==> c.row < 2) &&
      (At(b, c).value.pieceType == Pawn <==> c.row in {1, 6}) &&
      (c.row in {0, 7} ==> At(b, c).value.pieceType == Chess.BackRowTypes[c.col]) &&
      1 <= At(b, c).value.id <= 32) &&
    (forall c, d | OnBoard(c) && OnBoard(d) && At(b, c).Some? && At(b, d).Some? ::
      At(b, c).value.id == At(b, d).value.id <==> c == d)
  }

  /** A board that reads as the engine's starting board with `hasMoved`
      stripped has the starting layout. */
  lemma StrippedLayout(b: GameBoard)
    requires forall c | OnBoard(c) ::
      var p := Board.At(Chess.InitialBoard(), c);
      At(b, c) == if p.Some? then Some(Strip(p.value)) else None
    ensures StartingLayout(b)
  {
    forall c | OnBoard(c)
      ensures At(b, c).Some? <==> c.row in {0, 1, 6, 7}
    {
      Chess.InitialPosition(c);
    }
    forall c | OnBoard(c) && At(b, c).Some?
      ensures (At(b, c).value.team == Black <==> c.row < 2) &&
        (At(b, c).value.pieceType == Pawn <==> c.row in {1, 6}) &&
        (c.row in {0, 7} ==> At(b, c).value.pieceType == Chess.BackRowTypes[c.col]) &&
        1 <= At(b, c).value.id <= 32
    {
      Chess.InitialPosition(c);
      Chess.InitialIdsDistinct(c, c);
    }
    forall c, d | OnBoard(c) && OnBoard(d) && At(b, c).Some? && At(b, d).Some?
      ensures At(b, c).value.id == At(b, d).value.id <==> c == d
    {
      Chess.InitialPosition(c);
      Chess.InitialPosition(d);
      Chess.InitialIdsDistinct(c, d);
    }
  }

  /** newGame's board: generateBackRow and generatePawnRow produce the same
      kinds, teams, rows and ids as in Chess.swift, so the board has the
      starting layout. */
  function InitialBoard(): (b: GameBoard)
    ensures forall c | OnBoard(c) ::
      var p := Board.At(Chess.InitialBoard(), c);
      At(b, c) == if p.Some? then Some(Strip(p.value)) else None
    ensures StartingLayout(b)
  {
    var init := Chess.InitialBoard();
    var b: GameBoard := seq(BoardSize, r requires 0 <= r < BoardSize =>
      seq(BoardSize, c requires 0 <= c < BoardSize =>
        if init[r][c].Some? then Some(Strip(init[r][c].value)) else None));
    StrippedLayout(b);
    b
  }

  /** The starting layout, square by square. */
  lemma InitialLayout(c: Coordinates, d: Coordinates)
    requires OnBoard(c) && OnBoard(d)
    ensures At(InitialBoard(), c).Some? <==> c.row in {0, 1, 6, 7}
    ensures At(InitialBoard(), c).Some? ==>
      var p := At(InitialBoard(), c).value;
      (p.team == Black <==> c.row < 2) &&
      (p.pieceType == Pawn <==> c.row in {1, 6}) &&
      (c.row in {0, 7} ==> p.pieceType == Chess.BackRowTypes[c.col]) &&
      1 <= p.id <= 32
    ensures At(InitialBoard(), c).Some? && At(InitialBoard(), d).Some? ==>
      (At(InitialBoard(), c).value.id == At(InitialBoard(), d).value.id <==> c == d)
  {
    Chess.InitialPosition(c);
    if Board.At(Chess.InitialBoard(), c).Some? && Board.At(Chess.InitialBoard(), d).Some? {
      Chess.InitialIdsDistinct(c, d);
    }
  }

  /** newGame as written: a fresh board and counter; `selected` is kept. */
  function NewGameAsWritten(g: Game): (r: Game)
    ensures r.board == InitialBoard() && r.chessPieceCounter == Chess.SetUp().1
    ensures r.selected == g.selected
  {
    g.(board := InitialBoard(), chessPieceCounter := Chess.SetUp().1)
  }

  /** newGame with the selection cleared as well. */
  function NewGame(g: Game): (r: Game)
    ensures r == NewGameAsWritten(g).(selected := None)
  {
    Game(InitialBoard(), Chess.SetUp().1, None)
  }

  /** `init()`: a new game on an empty struct, where nothing is selected. */
  function Init(): (r: Game)
    ensures r.selected.None? && r.board == InitialBoard()
  {
    NewGameAsWritten(Game(seq(BoardSize, r => seq(BoardSize, c => None)), 0, None))
  }

  /** move(_:to:): nothing when `from == to`; otherwise the piece on `from`
      replaces whatever stood on `to`, and `from` is emptied. */
  function MovePiece(b: GameBoard, from: Coordinates, to: Coordinates): (r: GameBoard)
    requires from == to || (OnBoard(from) && OnBoard(to))
    ensures from == to ==> r == b
    ensures from != to ==>
      At(r, to) == At(b, from) && At(r, from).None? &&
      forall c | OnBoard(c) && c != from && c != to :: At(r, c) == At(b, c)
    ensures Grid.Count(r) == Grid.Count(b) - (if from != to && At(b, to).Some? then 1 else 0)
  {
    if from == to then b
    else
      Grid.RelocateCells(b, (from.row, from.col), (to.row, to.col));
      Grid.RelocateCount(b, (from.row, from.col), (to.row, to.col));
      Grid.Relocate(b, (from.row, from.col), (to.row, to.col))
  }

  /** What select needs in order not to trap: the tapped square is read when
      nothing is selected, and moved to otherwise. */
  predicate SelectDefined(g: Game, row: int, col: int) {
    var c := Coordinates(row, col);
    match g.selected
    case None => OnBoard(c)
    case Some(s) => s == c || (OnBoard(s) && OnBoard(c))
  }

  /** select: with nothing selected, a tap on a piece selects it; with a
      selection, the tap moves the selected square's occupant to the tapped
      square and clears the selection. */
  function Select(g: Game, row: int, col: int): (r: Game)
    requires SelectDefined(g, row, col)
    ensures r.chessPieceCounter == g.chessPieceCounter
    ensures r.selected.Some? <==> g.selected.None? && At(g.board, Coordinates(row, col)).Some?
    ensures r.selected.Some? ==> r.selected == Some(Coordinates(row, col)) && r.board == g.board
    ensures g.selected.None? ==> r.board == g.board
    ensures g.selected.Some? ==>
      r.selected.None? && r.board == MovePiece(g.board, g.selected.value, Coordinates(row, col))
  {
    var c := Coordinates(row, col);
    if g.selected.None? && At(g.board, c).Some? then
      g.(selected := Some(c))
    else if g.selected.Some? then
      g.(board := MovePiece(g.board, g.selected.value, c), selected := None)
    else
      g
  }

  /** The selected square holds a piece. */
  predicate SelectionOccupied(g: Game) {
    g.selected.Some? ==> OnBoard(g.selected.value) && At(g.board, g.selected.value).Some?
  }

  /** With an occupied selection, a tap on another square puts the selected
      piece there and leaves every other square but the selected one as it
      was; a tap on the selected square itself only deselects. The pieces on
      the board drop by one exactly when the tapped square was occupied. */
  lemma TapMovesSelectedPiece(g: Game, row: int, col: int)
    requires SelectionOccupied(g) && g.selected.Some? && SelectDefined(g, row, col)
    ensures var c := Coordinates(row, col);
      var s := g.selected.value;
      var r := Select(g, row, col);
      r.selected.None? &&
      (s == c ==> r.board == g.board) &&
      (s != c ==>
        At(r.board, c) == At(g.board, s) && At(r.board, c).Some? && At(r.board, s).None? &&
        (forall d | OnBoard(d) && d != s && d != c :: At(r.board, d) == At(g.board, d)) &&
        Grid.Count(r.board) == Grid.Count(g.board) - (if At(g.board, c).Some? then 1 else 0))
  {
  }

  lemma SelectKeepsSelectionOccupied(g: Game, row: int, col: int)
    requires SelectionOccupied(g) && SelectDefined(g, row, col)
    ensures SelectionOccupied(Select(g, row, col))
  {
  }

  /** The corrected newGame starts with an occupied (empty) selection, and its
      first tap never changes the board. */
  lemma NewGameFirstTapKeepsBoard(g: Game, row: int, col: int)
    requires SelectDefined(NewGame(g), row, col)
    ensures SelectionOccupied(NewGame(g))
    ensures Select(NewGame(g), row, col).board == InitialBoard()
  {
  }

  /** newGame as written keeps a selection whose square may be empty on the
      new board. With (4, 4) selected, the first tap on (0, 0) after newGame
      empties both squares: black's rook disappears and nothing takes its
      place. */
  lemma NewGameAsWrittenErasesPiece(g: Game)
    requires g.selected == Some(Coordinates(4, 4))
    ensures !SelectionOccupied(NewGameAsWritten(g))
    ensures var r := Select(NewGameAsWritten(g), 0, 0);
      At(InitialBoard(), Coordinates(0, 0)) == Some(Piece(1, Black, Rook)) &&
      At(r.board, Coordinates(0, 0)).None? && At(r.board, Coordinates(4, 4)).None? &&
      (forall d | OnBoard(d) && d != Coordinates(0, 0) :: At(r.board, d) == At(InitialBoard(), d)) &&
      Grid.Count(r.board) == Grid.Count(InitialBoard()) - 1
  {
    Chess.InitialPosition(Coordinates(4, 4));
    Chess.InitialPosition(Coordinates(0, 0));
    Chess.InitialIdsDistinct(Coordinates(0, 0), Coordinates(0, 0));
    assert Board.At(Chess.InitialBoard(), Coordinates(0, 0)).value.id == 1;
  }

  /** Such a selection arises in play: from the starting position, move the
      pawn on (6, 4) to (4, 4) and select it again. */
  lemma ErasingSelectionReachable()
    ensures var g := Select(Select(Select(Init(), 6, 4), 4, 4), 4, 4);
      SelectionOccupied(g) && g.selected == Some(Coordinates(4, 4))
  {
    Chess.InitialPosition(Coordinates(6, 4));
    Chess.InitialPosition(Coordinates(4, 4));
  }
}
