/** Chess/Model/Board.swift: queries over an 8x8 grid of tiles. A tile is
    modelled by its occupant only; its id, colour and coordinates are fixed
    functions of its position, and its `highlight` flag is display state. */
module Board {
  import opened Optional
  import opened Pieces
  import opened Util
  import Grid

  const BoardSize: nat := 8

  /** The grid `[[ChessTile]]`, row-major, always 8 rows of 8 tiles. */
  type ChessBoard = b: seq<seq<Option<ChessPiece>>>
    | |b| == BoardSize && forall r | 0 <= r < |b| :: |b[r]| == BoardSize
    witness seq(BoardSize, r => seq(BoardSize, c => None))

  /** Board extensions that the engine calls but whose bodies are not part of
      this model; they enter as parameters and nothing is assumed about them.
      - `underAttack(board, at, ignoring, byTeam)`: is `at` attacked by
        `byTeam` when the square `ignoring` is treated as vacant;
      - `pathNotUnderAttack(board, from, rowInc, colInc, until, byTeam)`: the
        ray from `from` up to the square `until` is free of attacks;
      - `execute(board, move)`: the board after playing `move`. */
  datatype BoardExtensions = BoardExtensions(
    underAttack: (ChessBoard, Coordinates, Option<Coordinates>, Team) -> bool,
    pathNotUnderAttack: (ChessBoard, Coordinates, int, int, Coordinates, Team) -> bool,
    execute: (ChessBoard, Move) -> ChessBoard)

  /** Row and column both index into the grid. */
  predicate IsValidTile(b: ChessBoard, location: Coordinates)
    ensures IsValidTile(b, location) <==> 0 <= location.row < 8 && 0 <= location.col < 8
  {
    location.row < |b| && location.row >= 0 && location.col < |b[location.row]| && location.col >= 0
  }

  /** The subscript `board[location]`, which traps off the board. */
  function At(b: ChessBoard, location: Coordinates): Option<ChessPiece>
    requires IsValidTile(b, location)
  {
    b[location.row][location.col]
  }

  /** `board[location] = v`; every other tile keeps its occupant. */
  function SetTile(b: ChessBoard, location: Coordinates, v: Option<ChessPiece>): (r: ChessBoard)
    requires IsValidTile(b, location)
    ensures At(r, location) == v
    ensures forall c | IsValidTile(b, c) && c != location :: At(r, c) == At(b, c)
  {
    Grid.Write(b, location.row, location.col, v)
  }

  predicate IsEmptyTile(b: ChessBoard, location: Coordinates)
    requires IsValidTile(b, location)
  {
    At(b, location).None?
  }

  /** The subscript gives every on-board square its own tile: two boards are
      the same exactly when every square reads the same on both. */
  lemma TilesDetermineBoard(b: ChessBoard, b': ChessBoard)
    ensures b == b' <==> forall c | IsValidTile(b, c) :: At(b, c) == At(b', c)
  {
    if forall c | IsValidTile(b, c) :: At(b, c) == At(b', c) {
      forall r | 0 <= r < BoardSize
        ensures b[r] == b'[r]
      {
        forall k | 0 <= k < BoardSize
          ensures b[r][k] == b'[r][k]
        {
          assert At(b, Coordinates(r, k)) == At(b', Coordinates(r, k));
        }
      }
    }
  }

  /** Occupied by the other side; an empty tile never qualifies. */
  predicate ContainsOpposingTeam(b: ChessBoard, location: Coordinates, team: Team)
    requires IsValidTile(b, location)
    ensures ContainsOpposingTeam(b, location, team)
      <==> At(b, location).Some? && At(b, location).value.team == OpposingTeam(team)
    ensures IsEmptyTile(b, location) ==> !ContainsOpposingTeam(b, location, team)
  {
    match At(b, location)
    case None => false
    case Some(piece) => piece.team != team
  }

  /** A tile is empty exactly when neither side finds an opponent on it. */
  lemma EmptyIffNoTeam(b: ChessBoard, location: Coordinates)
    requires IsValidTile(b, location)
    ensures IsEmptyTile(b, location) <==>
      !ContainsOpposingTeam(b, location, White) && !ContainsOpposingTeam(b, location, Black)
  {
  }

  /** A destination a piece of `team` may land on: on the board, and empty or
      held by the other side (`isEmptyTile || containsOpposingTeam`). */
  predicate Landable(b: ChessBoard, location: Coordinates, team: Team) {
    IsValidTile(b, location) && (IsEmptyTile(b, location) || ContainsOpposingTeam(b, location, team))
  }

  /** Occupied by a piece of exactly `team` whose kind is listed in
      `pieceTypes`, found by scanning the list. */
  method Contains(b: ChessBoard, team: Team, pieceTypes: seq<PieceType>, location: Coordinates) returns (r: bool)
    requires IsValidTile(b, location)
    ensures r <==> At(b, location).Some? && At(b, location).value.team == team
                   && At(b, location).value.pieceType in pieceTypes
    ensures pieceTypes == [] ==> !r
  {
    var occupant := b[location.row][location.col];
    if occupant.None? {
      return false;
    }
    var piece := occupant.value;
    if piece.team != team {
      return false;
    }
    var i := 0;
    while i < |pieceTypes|
      invariant 0 <= i <= |pieceTypes|
      invariant piece.pieceType !in pieceTypes[..i]
    {
      if piece.pieceType == pieceTypes[i] {
        return true;
      }
      i := i + 1;
    }
    assert pieceTypes[..i] == pieceTypes;
    return false;
  }

  // ---------------------------------------------------------------------------
  // firstPieceInPath
  // ---------------------------------------------------------------------------

  /** The k-th square of the ray from `location` with step (rowInc, colInc). */
  function PathSquare(location: Coordinates, rowInc: int, colInc: int, k: int): Coordinates {
    Coordinates(location.row + k * rowInc, location.col + k * colInc)
  }

  /** The walk goes on over empty on-board squares and over the ignored square. */
  predicate Continues(b: ChessBoard, next: Coordinates, ignoring: Option<Coordinates>) {
    (IsValidTile(b, next) && IsEmptyTile(b, next)) || Some(next) == ignoring
  }

  function Clip(x: int): nat {
    if x < 0 then 0 else x
  }

  /** Distance to the far side of the box spanned by the board and the ignored
      square, measured along the leading non-zero component of the step. Every
      square the walk continues from lies in that box. */
  function WalkMeasure(next: Coordinates, ignoring: Option<Coordinates>, rowInc: int, colInc: int): nat {
    var loRow := if ignoring.Some? && ignoring.value.row < 0 then ignoring.value.row else 0;
    var hiRow := if ignoring.Some? && ignoring.value.row > 7 then ignoring.value.row else 7;
    var loCol := if ignoring.Some? && ignoring.value.col < 0 then ignoring.value.col else 0;
    var hiCol := if ignoring.Some? && ignoring.value.col > 7 then ignoring.value.col else 7;
    if rowInc > 0 then Clip(hiRow + 1 - next.row)
    else if rowInc < 0 then Clip(next.row - loRow + 1)
    else if colInc > 0 then Clip(hiCol + 1 - next.col)
    else Clip(next.col - loCol + 1)
  }

  /** The loop of `firstPieceInPath`, from the square `next` onwards. */
  function Walk(b: ChessBoard, next: Coordinates, ignoring: Option<Coordinates>, rowInc: int, colInc: int): (r: Option<Coordinates>)
    requires rowInc != 0 || colInc != 0
    ensures r.Some? ==> IsValidTile(b, r.value) && !IsEmptyTile(b, r.value) && Some(r.value) != ignoring
    decreases WalkMeasure(next, ignoring, rowInc, colInc)
  {
    if Continues(b, next, ignoring) then
      Walk(b, Coordinates(next.row + rowInc, next.col + colInc), ignoring, rowInc, colInc)
    else if IsValidTile(b, next) && !IsEmptyTile(b, next) && Some(next) != ignoring then
      Some(next)
    else
      None
  }

  /** The first occupied square along the ray, skipping `ignoring`, or None
      when the ray leaves the board first. A zero step would loop forever. */
  function FirstPieceInPath(b: ChessBoard, location: Coordinates, ignoring: Option<Coordinates>, rowInc: int, colInc: int): (r: Option<Coordinates>)
    requires rowInc != 0 || colInc != 0
    ensures r.Some? ==> IsValidTile(b, r.value) && !IsEmptyTile(b, r.value) && Some(r.value) != ignoring
  {
    Walk(b, Coordinates(location.row + rowInc, location.col + colInc), ignoring, rowInc, colInc)
  }

  lemma {:induction false} WalkStops(b: ChessBoard, location: Coordinates, ignoring: Option<Coordinates>, rowInc: int, colInc: int, k: int)
    returns (n: int)
    requires rowInc != 0 || colInc != 0
    requires k >= 1
    requires forall j | 1 <= j < k :: Continues(b, PathSquare(location, rowInc, colInc, j), ignoring)
    ensures n >= k
    ensures forall j | 1 <= j < n :: Continues(b, PathSquare(location, rowInc, colInc, j), ignoring)
    ensures !Continues(b, PathSquare(location, rowInc, colInc, n), ignoring)
    ensures var stop := PathSquare(location, rowInc, colInc, n);
            Walk(b, PathSquare(location, rowInc, colInc, k), ignoring, rowInc, colInc)
              == if IsValidTile(b, stop) then Some(stop) else None
    decreases WalkMeasure(PathSquare(location, rowInc, colInc, k), ignoring, rowInc, colInc)
  {
    var next := PathSquare(location, rowInc, colInc, k);
    if Continues(b, next, ignoring) {
      assert PathSquare(location, rowInc, colInc, k + 1) == Coordinates(next.row + rowInc, next.col + colInc);
      n := WalkStops(b, location, ignoring, rowInc, colInc, k + 1);
    } else {
      n := k;
    }
  }

  /** Reference description of `firstPieceInPath`: with `n` the index of the
      first square where the walk stops, every square before it is empty or
      ignored, and the result is that square exactly when it is on the board
      (it is then occupied and not the ignored square). */
  lemma FirstPieceInPathStops(b: ChessBoard, location: Coordinates, ignoring: Option<Coordinates>, rowInc: int, colInc: int)
    returns (n: int)
    requires rowInc != 0 || colInc != 0
    ensures n >= 1
    ensures forall j | 1 <= j < n :: Continues(b, PathSquare(location, rowInc, colInc, j), ignoring)
    ensures !Continues(b, PathSquare(location, rowInc, colInc, n), ignoring)
    ensures var stop := PathSquare(location, rowInc, colInc, n);
            FirstPieceInPath(b, location, ignoring, rowInc, colInc)
              == if IsValidTile(b, stop) then Some(stop) else None
  {
    n := WalkStops(b, location, ignoring, rowInc, colInc, 1);
  }

  // ---------------------------------------------------------------------------
  // adjacentTiles
  // ---------------------------------------------------------------------------

  predicate Distinct<T(==)>(s: seq<T>) {
    forall i, j | 0 <= i < j < |s| :: s[i] != s[j]
  }

  /** `filter { isValidTile($0) }`, order preserved. */
  function ValidOnly(b: ChessBoard, cs: seq<Coordinates>): (r: seq<Coordinates>)
    ensures forall t :: t in r <==> t in cs && IsValidTile(b, t)
    ensures |r| <= |cs|
    ensures Distinct(cs) ==> Distinct(r)
    ensures (forall t | t in cs :: IsValidTile(b, t)) ==> r == cs
  {
    if cs == [] then []
    else
      var rest := ValidOnly(b, cs[1..]);
      assert Distinct(cs) ==> Distinct(cs[1..]) && cs[0] !in cs[1..];
      if IsValidTile(b, cs[0]) then [cs[0]] + rest else rest
  }

  /** The eight king steps around `location`, in the order the source lists them. */
  function KingSteps(location: Coordinates): seq<Coordinates> {
    var r := location.row;
    var c := location.col;
    [Coordinates(r + 1, c - 1), Coordinates(r + 1, c), Coordinates(r + 1, c + 1),
     Coordinates(r, c - 1), Coordinates(r, c + 1),
     Coordinates(r - 1, c - 1), Coordinates(r - 1, c), Coordinates(r - 1, c + 1)]
  }

  /** The eight candidates are exactly the squares adjacent to and different
      from `location`, each listed once. */
  lemma KingStepsAreNeighbours(location: Coordinates)
    ensures forall t :: t in KingSteps(location) <==> t != location && AreAdjacent(location, t)
    ensures Distinct(KingSteps(location)) && |KingSteps(location)| == 8
  {
    forall t | t != location && AreAdjacent(location, t)
      ensures t in KingSteps(location)
    {
      assert t.row - location.row in {-1, 0, 1} && t.col - location.col in {-1, 0, 1};
    }
  }

  /** The on-board squares a king could step to: every valid square within one
      row and column, other than `location` itself, once each. */
  function AdjacentTiles(b: ChessBoard, location: Coordinates): (r: seq<Coordinates>)
    ensures forall t :: t in r <==> IsValidTile(b, t) && t != location && AreAdjacent(location, t)
    ensures Distinct(r) && |r| <= 8
    ensures 1 <= location.row <= 6 && 1 <= location.col <= 6 ==> |r| == 8
  {
    KingStepsAreNeighbours(location);
    ValidOnly(b, KingSteps(location))
  }
}
