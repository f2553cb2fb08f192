# Chess rules engine: a Dafny model

This project models the rules engine of a small Swift chess app, the files under
`Chess/Model`, and proves properties of it. It has four layers:

- **Board queries** (`Board.swift`, `Util.swift`). These are bounds and emptiness checks, occupancy tests, the
  eight king-step neighbours, the ray walk to the first occupied square, and the
  team swap. They live in modules `Util` and `Board`. The grid operations both
  boards share are in `Grid`: writing a cell, relocating an occupant, and counting
  occupied cells.
- **Move generation** (`Movement.swift`). Each kind of piece has a generator. The
  pawn has single and double steps, diagonal captures and en passant. The rook,
  bishop and queen slide. The knight jumps. The king has its steps and castling.
  The ray walks shared with the older generator are in `Geometry`. Each generator
  is specified against an independent description of the squares it must find:
  lines with a clear path, knight jumps, or pawn rules.
- **The game** (`Chess.swift`, module `Chess`). This covers turn parity and
  the per-side move counts, and the standard setup with its piece ids. It also
  covers the two-tap `select` protocol, and `move` with its lookup in the
  precomputed possible moves. Then come the tracked king squares, the self-check
  filter, the `canMove` scan, and the classification into in progress, check,
  checkmate or draw. The `Move` value type and its initialisers are in `Pieces`.
- **Two earlier versions.** `ChessRules.swift` (module `ChessRules`) has the same
  generators but returns bare coordinates; lemmas state that it agrees with
  `Movement`. `Model/ChessGame.swift` (module `ChessGame`) is a select/move board
  with no rules.

`underAttack`, `pathNotUnderAttack` and the board's `execute` are called by the
engine, but their bodies are not part of this model. They are fields of the
`Board.BoardExtensions` datatype, passed in as a parameter, and nothing is assumed
about them. `firstPieceLocationInPath` is also not part of this model. Castling
uses `firstPieceInPath` with no ignored square in its place. That is an
assumption: the two names suggest the same walk.

Where Swift traps (an out-of-range subscript, a force unwrap), the model has a
precondition that states exactly when the trap happens. Examples are
`Movement.PawnMovesDefined`, `Chess.CanCalculate` and `Chess.SelectDefined`. The
`didSet` observers on `selected` and `possibleMoves` are folded into
`Chess.Select`. Clearing the selection clears the possible moves, and setting it
calculates them. The highlight writes those observers make are not modelled as
state, but their subscripts are: `Chess.SelectDefined` requires the selected
square and every destination to be highlighted or un-highlighted to lie on the
board. A castle from a king near the board's edge can list a destination off
the board, and highlighting it traps.

The view's New Game button calls `newGame` on a live game, so a fresh start is
what it asks for. The code does not give one: `newGame` keeps the selection, its
possible moves and the move history. The model follows the code, and the
consequences are under Findings.

## Model

| member | source | states |
|---|---|---|
| Pieces.QuietMove | Chess/Model/Chess.swift:53-60 | a plain move: neither castle nor capture, with the given from and to |
| Pieces.CastleMove | Chess/Model/Chess.swift:62-69 | king from/to and rook from/to taken from the first four entries; fewer than four entries trap |
| Pieces.CaptureAtMove | Chess/Model/Chess.swift:75-82 | a capture whose captured piece and capture square are the given ones, possibly not the destination |
| Pieces.CaptureMove | Chess/Model/Chess.swift:71-73 | delegates to the four-argument initialiser with the destination as the capture square |
| Pieces.MoveShapesDisjoint | Chess/Model/Chess.swift:45-83 | no move is built by two different initialisers |
| Util.OpposingTeam | Chess/Model/Util.swift:11-18 | the opposing team is never the team itself |
| Util.OpposingTeamInvolution | Chess/Model/Util.swift:11-18 | swapping twice gives back the team |
| Util.AreAdjacent | Chess/Model/Util.swift:20-22 | adjacent iff both coordinate differences lie in -1..1 |
| Util.AdjacencySymmetricReflexive | Chess/Model/Util.swift:20-22 | adjacency is symmetric and includes the square itself |
| Board.IsValidTile | Chess/Model/Board.swift:66-68 | valid iff row and column both lie in 0..7 on the 8x8 board |
| Board.ContainsOpposingTeam | Chess/Model/Board.swift:33-38 | true iff occupied by the other team; never on an empty tile |
| Board.TilesDetermineBoard | Chess/Model/Board.swift:29-31 | the subscript reads a separate tile for each square: two boards are equal iff every square reads the same |
| Board.EmptyIffNoTeam | Chess/Model/Board.swift:69-71 | a tile is empty iff neither side finds an opponent on it |
| Board.Contains | Chess/Model/Board.swift:14-27 | true iff occupied by exactly that team with a kind in the list; an empty list gives false |
| Board.Walk | Chess/Model/Board.swift:42-46 | the walk's stop square, if any, is on the board, occupied and not the ignored square; it terminates for a non-zero step |
| Board.FirstPieceInPath | Chess/Model/Board.swift:40-47 | a found square is valid, occupied and not the ignored square |
| Board.WalkStops | Chess/Model/Board.swift:42-46 | from any square the walk has reached, it stops at the first index that is neither empty nor ignored |
| Board.FirstPieceInPathStops | Chess/Model/Board.swift:40-47 | reference description: with n the first index that is not empty or ignored, the result is square n if it is on the board, else nil |
| Board.ValidOnly | Chess/Model/Board.swift:63 | the filter keeps exactly the valid candidates and preserves distinctness |
| Board.KingStepsAreNeighbours | Chess/Model/Board.swift:49-61 | the eight listed candidates are exactly the adjacent squares other than the origin, each once |
| Board.AdjacentTiles | Chess/Model/Board.swift:49-64 | exactly the valid adjacent squares other than the origin, no duplicates, at most 8, exactly 8 away from the edge |
| Geometry.RayWalk | Chess/Model/Movement.swift:72-76 | consecutive steps from the start, all vacant but the last, which is vacant or opposing; it stops only at the board edge, a friendly piece, or after an opposing one |
| Geometry.RaySquareClosed | Chess/Model/Movement.swift:74-75 | after k steps the walk is at origin plus k times the step |
| Geometry.RayWalkSound | Chess/Model/Movement.swift:71-79 | every target is k steps out over vacant squares and is vacant or opposing |
| Geometry.RayWalkComplete | Chess/Model/Movement.swift:71-79 | every square reached over vacant squares that is vacant or opposing is a target |
| Geometry.RayTargetsIff | Chess/Model/Movement.swift:70-80 | one direction finds exactly the squares reachable in that direction |
| Geometry.RaysTargetsIff | Chess/Model/Movement.swift:70-80 | the concatenated directions find exactly the squares reachable along some direction |
| Geometry.StraightDirections | Chess/Model/Movement.swift:18 | the four orthogonal steps reach exactly the squares on a rank or file with a clear path |
| Geometry.DiagonalDirections | Chess/Model/Movement.swift:17 | the four diagonal steps reach exactly the diagonal squares with a clear path |
| Geometry.KnightCandidatesAreJumps | Chess/Model/Movement.swift:90-104 | the eight candidates are exactly the knight jumps, each once |
| Movement.IncrementerTables | Chess/Model/Movement.swift:16-18 | the straight and diagonal tables list exactly their four unit directions |
| Movement.MoveTo | Chess/Model/Movement.swift:86 | quiet iff the target is empty, otherwise a capture of its occupant at the target |
| Movement.TargetsToMoves | Chess/Model/Movement.swift:86 | one move per target, in order, each a simple move onto its target |
| Movement.Slide | Chess/Model/Movement.swift:70-80 | the destinations are exactly the squares reachable along the given directions |
| Movement.RookMoves | Chess/Model/Movement.swift:66-83 | destinations are exactly the rank/file squares with a clear path that are empty or opposing; captures exactly on opposing pieces |
| Movement.BishopMoves | Chess/Model/Movement.swift:108-125 | the same on the diagonals |
| Movement.QueenMoves | Chess/Model/Movement.swift:126-133 | destinations are exactly the union of the rook's and the bishop's |
| Movement.AllPotentialKnightMoveTos | Chess/Model/Movement.swift:90-106 | exactly the on-board knight jumps, distinct, at most 8 |
| Movement.LandableOnly | Chess/Model/Movement.swift:86 | keeps exactly the squares that are empty or opposing |
| Movement.KnightMoves | Chess/Model/Movement.swift:85-88 | destinations are exactly the jumps onto empty or opposing squares, each once; captures exactly on occupied ones |
| Movement.EnPassant | Chess/Model/Movement.swift:53-64 | needs a last move onto a pawn that went exactly two rows along the target's column, and the target is the square it passed over for its team |
| Movement.EnPassantTargetsSkippedSquare | Chess/Model/Movement.swift:53-64 | after an opponent pawn's double step, exactly the skipped square qualifies |
| Movement.EnPassantOnlyAfterDoubleStep | Chess/Model/Movement.swift:53-64 | for every last move: a square qualifies iff a pawn stands on the destination, the move went two rows along one column, and the square is one row ahead of the origin for the pawn's team |
| Movement.PawnAttack | Chess/Model/Movement.swift:38-47 | at most one move towards the column, a capture of the opposing piece there or an en passant capture of the last mover |
| Movement.PawnAdvances | Chess/Model/Movement.swift:23-35 | exactly the single step onto an empty square and the double step of an unmoved pawn over two empty squares |
| Movement.PawnMoves | Chess/Model/Movement.swift:20-51 | exactly the moves allowed by the four pawn rules, at most four |
| Movement.SafeSteps | Chess/Model/Movement.swift:137-142 | keeps exactly the empty-or-opposing squares not attacked with the origin ignored |
| Movement.FirstPieceOnRow | Chess/Model/Movement.swift:154 | along a row, the first piece in the path is exactly the nearest piece |
| Movement.CastleSide | Chess/Model/Movement.swift:154-161 | at most one castle, exactly when the nearest piece on that side is an unmoved rook and the path is not attacked |
| Movement.CastleMoves | Chess/Model/Movement.swift:148-172 | nothing once the king has moved; otherwise exactly the castles of either side |
| Movement.KingMoves | Chess/Model/Movement.swift:134-147 | non-castle moves are exactly the allowed king steps; castle moves are exactly the castles |
| ChessRules.DirectionTables | Chess/Model/ChessRules.swift:42-137 | the rook walks cover the four orthogonal directions and the bishop walks the four diagonals |
| ChessRules.PawnMoves | Chess/Model/ChessRules.swift:13-40 | exactly the pawn target squares: advances and diagonal captures, no en passant |
| ChessRules.RookMoves | Chess/Model/ChessRules.swift:42-69 | exactly the rank/file squares with a clear path that are empty or opposing |
| ChessRules.BishopMoves | Chess/Model/ChessRules.swift:93-137 | exactly the diagonal squares with a clear path that are empty or opposing |
| ChessRules.QueenMoves | Chess/Model/ChessRules.swift:138-145 | exactly the union of the two |
| ChessRules.AllPotentialKnightMoves | Chess/Model/ChessRules.swift:75-91 | exactly the on-board knight jumps, distinct |
| ChessRules.KnightMoves | Chess/Model/ChessRules.swift:71-73 | exactly the jumps onto empty or opposing squares, distinct |
| ChessRules.CastleMoves | Chess/Model/ChessRules.swift:159-179 | the king destinations of Movement's castles, in the same order |
| ChessRules.KingMoves | Chess/Model/ChessRules.swift:146-158 | the destinations of Movement's king moves, in the same order |
| ChessRules.PawnAttackAgrees | Chess/Model/ChessRules.swift:30-38 | each diagonal capture square matches Movement's capture destination when there is no last move |
| ChessRules.PawnAdvancesAgree | Chess/Model/ChessRules.swift:16-28 | the advance squares match Movement's, in order |
| ChessRules.PawnMovesAgree | Chess/Model/ChessRules.swift:13-40 | without a last move the two pawn generators list the same squares in the same order |
| ChessRules.RookMovesAgree | Chess/Model/ChessRules.swift:42-69 | the two rook generators find the same squares |
| ChessRules.BishopMovesAgree | Chess/Model/ChessRules.swift:93-137 | the two bishop generators find the same squares |
| ChessRules.QueenMovesAgree | Chess/Model/ChessRules.swift:138-145 | the two queen generators find the same squares |
| ChessRules.KnightMovesAgree | Chess/Model/ChessRules.swift:71-91 | the two knight generators list the same squares in the same order |
| Chess.WhosTurn | Chess/Model/Chess.swift:91-93 | black exactly when the turn halves without remainder under Swift's truncating division |
| Chess.TurnsAlternate | Chess/Model/Chess.swift:91-93 | advancing the turn hands the move to the other side |
| Chess.CeilHalf | Chess/Model/Chess.swift:95 | the least integer not below n / 2 |
| Chess.TruncatedHalf | Chess/Model/Chess.swift:98 | Swift's division by two, rounding towards zero for either sign |
| Chess.TurnCounts | Chess/Model/Chess.swift:91-99 | white's and black's counts add up to turn - 1, and white is one ahead exactly when black is to move |
| Chess.TileColoursAlternate | Chess/Model/Chess.swift:206-213 | neighbours along a rank or file differ in colour, diagonal neighbours share it, and white's left corner is dark |
| Chess.TileIdsDistinct | Chess/Model/Chess.swift:194-200 | tile ids are 0..63 and distinct |
| Chess.BackRow | Chess/Model/Chess.swift:170-186 | eight unmoved pieces of the team, the kinds in back-row order, ids strictly increasing within counter+1..counter+8 (hence distinct); Chess.InitialPosition and Chess.InitialIdsDistinct state the resulting layout |
| Chess.PawnRow | Chess/Model/Chess.swift:187-192 | eight unmoved pawns of the team, ids strictly increasing within counter+1..counter+8 (hence distinct) |
| Chess.EmptyBoard | Chess/Model/Chess.swift:193-204 | every tile empty |
| Chess.PlaceRow | Chess/Model/Chess.swift:183-185 | one row replaced by the pieces in column order; the others unchanged |
| Chess.InitialPosition | Chess/Model/Chess.swift:228-242 | rows 0, 1, 6 and 7 are occupied and the rest empty; black on rows 0 and 1; pawns on rows 1 and 6; back rows R N B Q K B N R; nothing has moved |
| Chess.InitialIdsDistinct | Chess/Model/Chess.swift:170-192 | ids run from 1 to the final counter 32 and are all distinct |
| Chess.InitialKings | Chess/Model/Chess.swift:240-241 | the recorded king squares (7, 4) and (0, 4) hold the white and black kings |
| Chess.NewGameAsWritten | Chess/Model/Chess.swift:228-242 | fresh board, turn 1, counter 32, tracked king squares (7, 4) and (0, 4) holding the white and black kings; the selection, its moves and the history are kept |
| Chess.NewGame | Chess/Model/Chess.swift:228-242 | as written, so with the same board, counter and king squares, but with nothing selected and an empty history: white to move on the initial board |
| Chess.PotentialMovesShape | Chess/Model/Chess.swift:325-339 | every generated move leaves the square; all but castles land on another on-board square; only kings castle |
| Chess.ScratchBoard | Chess/Model/Chess.swift:377-379 | the moved piece is on the destination, the origin is empty, other tiles are unchanged, and only a captured occupant is lost |
| Chess.ScratchBoardUnique | Chess/Model/Chess.swift:377-379 | the scratch board is the one board whose tiles read: origin empty, destination holding the moved piece, every other tile as before |
| Chess.NoSelfCheckOnMovedBoard | Chess/Model/Chess.swift:370-385 | a king move always passes; any other move passes iff the own king is not attacked on any board that reads tile by tile as the position with the piece moved |
| Chess.FilterNoSelfCheck | Chess/Model/Chess.swift:341 | keeps exactly the moves that pass the self-check test, as a subsequence in their original order |
| Chess.CalculatePossibleMoves | Chess/Model/Chess.swift:320-343 | none on an empty square; otherwise exactly the generated moves that pass ensureNoSelfCheck |
| Chess.PossibleMovesAreSafe | Chess/Model/Chess.swift:370-385 | a possible move leaves the square, and unless the king itself moves, it leaves the own king unattacked on the scratch board |
| Chess.CanCalculateWhenKingTracked | Chess/Model/Chess.swift:320-343 | calculating never traps on a square whose pawn can be read and whose king is the tracked one |
| Chess.FirstMatch | Chess/Model/Chess.swift:295 | the index of the first matching move |
| Chess.GetMove | Chess/Model/Chess.swift:294-296 | found iff some listed move matches; the found move is the listed move at the first matching index |
| Chess.TrackKingLocation | Chess/Model/Chess.swift:298-307 | only the king squares change: black's first, then white's, otherwise nothing |
| Chess.MakeMove | Chess/Model/Chess.swift:279-293 | no match: false and nothing changes; a match: turn + 1, the move appended and applied with `execute`, a tracked king square follows `from` |
| Chess.CanSelect | Chess/Model/Chess.swift:269-271 | selectable iff the square is neither empty nor held by the side not to move |
| Chess.Select | Chess/Model/Chess.swift:247-274 | deselect, or select with fresh moves; otherwise, with a selection, the turn advances iff a listed move goes from the selected square to the tapped one, and then the first such move is appended, the tracked king squares follow it, the counter is kept and the selection cleared; a tap that plays nothing changes nothing, keeping the selection |
| Chess.SelectionIrrelevant | Chess/Model/Chess.swift:320-343 | the possible moves of a square do not depend on the selection fields |
| Chess.SelectKeepsSelectionConsistent | Chess/Model/Chess.swift:247-268 | select keeps the selection and its possible moves in agreement with the position |
| Chess.ConsistentSelectPlaysLegalMove | Chess/Model/Chess.swift:257-264 | with a consistent selection, a tap only plays a legal move of the selected piece onto the tapped square |
| Chess.ConsistentTapPlaysIffLegal | Chess/Model/Chess.swift:257-266 | with a consistent selection, a move tap plays iff the selected piece has a legal move onto the tapped square, and otherwise leaves the game unchanged |
| Chess.NonKingMovesHighlightable | Chess/Model/Chess.swift:150-158 | a piece other than a king lists only on-board destinations, so highlighting its moves never traps |
| Chess.NewGameSelectsAfresh | Chess/Model/Chess.swift:228-242 | after the corrected newGame the selection is consistent and the first tap leaves the board initial and the history empty |
| Chess.AnySquare | Chess/Model/Chess.swift:352-361 | the row-by-row scan finds a square iff one exists |
| Chess.CanMove | Chess/Model/Chess.swift:345-363 | true iff the tracked king square or some square of the team has a legal move |
| Chess.NewGameInCheck | Chess/Model/Chess.swift:365-368 | at the start of a game the white king stands on (7, 4), and the check test is exactly whether black attacks that square |
| Chess.Classify | Chess/Model/Chess.swift:120-132 | each state exactly for its combination of in-check and no-moves |
| Chess.GetState | Chess/Model/Chess.swift:114-132 | checkmate, check, draw or in progress exactly as in-check and has-a-legal-move combine |
| StaleSelection.RookAdvanceLegal | Chess/Model/Chess.swift:320-343 | a ready rook's advance up its file is a possible move unless it exposes the king |
| StaleSelection.InitialRookBlocked | Chess/Model/Movement.swift:66-83 | on the initial board the rook on (7, 0) cannot advance past its own pawn |
| StaleSelection.NewGameAsWrittenPlaysStaleMove | Chess/Model/Chess.swift:228-242 | after newGame as written, the first tap plays the old position's rook advance on the initial board |
| StaleSelection.StaleTap | Chess/Model/Chess.swift:257-264 | a tap against a stale selection plays its listed move even though the selection is inconsistent |
| ChessGame.InitialBoard | Chess/Model/ChessGame.swift:40-94 | the rules engine's starting pieces without the moved flag, laid out with rows 0, 1, 6 and 7 occupied, black on top, pawns on rows 1 and 6, back rows in order, ids 1..32 all distinct |
| ChessGame.InitialLayout | Chess/Model/ChessGame.swift:40-60 | rows 0, 1, 6 and 7 occupied, black on top, pawns on rows 1 and 6, back-row order, ids 1..32 distinct |
| ChessGame.NewGameAsWritten | Chess/Model/ChessGame.swift:84-94 | fresh board and counter 32; the selection is kept |
| ChessGame.NewGame | Chess/Model/ChessGame.swift:84-94 | as written, with the selection cleared |
| ChessGame.Init | Chess/Model/ChessGame.swift:37-39 | a new game starts with nothing selected on the initial board |
| ChessGame.MovePiece | Chess/Model/ChessGame.swift:76-82 | nothing when from == to; otherwise from's content moves to `to`, `from` is emptied, other squares are unchanged, and the piece count drops only by a replaced occupant |
| ChessGame.Select | Chess/Model/ChessGame.swift:66-74 | a piece is selected only from no selection; with any selection, occupied or not, the tap clears it and the board becomes MovePiece of the selected square onto the tapped one |
| ChessGame.TapMovesSelectedPiece | Chess/Model/ChessGame.swift:66-82 | with an occupied selection, a tap elsewhere puts the selected piece there and keeps all other squares |
| ChessGame.SelectKeepsSelectionOccupied | Chess/Model/ChessGame.swift:66-74 | select keeps the selected square occupied |
| ChessGame.NewGameFirstTapKeepsBoard | Chess/Model/ChessGame.swift:84-94 | after the corrected newGame the first tap never changes the board |
| ChessGame.NewGameAsWrittenErasesPiece | Chess/Model/ChessGame.swift:84-94 | with (4, 4) still selected, the first tap on (0, 0) after newGame removes black's rook and adds nothing |
| ChessGame.ErasingSelectionReachable | Chess/Model/ChessGame.swift:66-74 | moving the pawn from (6, 4) to (4, 4) and selecting it again leaves (4, 4) selected |

## Left out

- Display state: the tiles' `highlight` flags and `highlightMoveTos` (Chess.swift:215-222), and the highlight set in `select`; only the traps of their subscripts are kept, in `Chess.SelectDefined`. Tile ids and colours are not stored in the board; `Chess.TileId` and `Chess.TileTypeAt` compute them.
- `print` calls (Chess.swift:103 and 305). The impossible branch of `trackKingLocation` leaves the state unchanged.
- The bodies of `underAttack`, `pathNotUnderAttack` and `execute`. They are parameters, and nothing is assumed about them. In particular `execute` is not known to set `hasMoved`.
- `firstPieceLocationInPath`: castling uses `firstPieceInPath` with no ignored square instead.
- The `Double` arithmetic in `whiteTurns`: `Chess.CeilHalf` is the exact integer ceiling, which `ceil` of a `Double` matches for any realistic turn count.
- Swift's fixed-width `Int`: turns, ids and coordinates are unbounded integers. No overflow is reachable on an 8x8 board within any realistic game length.
- The views, the view models and the app entry point (`Chess/View`, `ChessApp.swift`). They only forward taps and `newGame` to the model.
- Chess.CanMove: its precondition asks that every square of the team can be calculated without trapping. The Swift loop stops at the first square with a move, so it only needs that for the squares it reaches before then.
- Chess.GetState: it inherits the precondition of `Chess.CanMove`.
- Chess.ScratchBoard: modelled as written. Like ensureNoSelfCheck's scratch board, it neither removes an en passant victim nor moves a castling rook.
- Promotion, threefold repetition and the fifty-move rule: the code has none of them.
- `ChessGame` reuses the `Team`, `PieceType` and `Coordinates` of `Pieces`, whose Swift declarations are identical. Only its piece type differs: it has no `hasMoved` flag.

## Findings

| source | as written | input that shows it | evidently intended | confidence | as-written member | corrected member |
|---|---|---|---|---|---|---|
| Chess/Model/Chess.swift:228-242 | `newGame` resets the board, turn and king squares, but keeps `selected`, `possibleMoves` and `moves`. The first tap of the new game then plays a move computed for the old position. | White to move with a rook on (7, 0) and (6..3, 0) empty. Select (7, 0), call `newGame`, tap (3, 0). The rook jumps over its own pawn on (6, 0), and the old history stays in `moves`. | `newGame` starts with nothing selected, no possible moves and an empty history. In Swift the `moves` observer (Chess.swift:101-105) force-unwraps `moves.last` and would trap on the emptied history, so it has to change too. | not executed | StaleSelection.NewGameAsWrittenPlaysStaleMove | Chess.NewGameSelectsAfresh |
| Chess/Model/ChessGame.swift:84-94 | `newGame` rebuilds the board but keeps `selected`. The next tap moves whatever stands on the stale square, possibly nothing, onto the tapped square. | Move the pawn (6, 4) to (4, 4) and select it again. Call `newGame`, then tap (0, 0). Black's rook on (0, 0) is erased, and the board holds one piece fewer than the initial board. | `newGame` clears the selection, so the first tap only selects. | not executed | ChessGame.NewGameAsWrittenErasesPiece | ChessGame.NewGameFirstTapKeepsBoard |
