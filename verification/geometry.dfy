/** Square geometry shared by the two move generators, Chess/Model/Movement.swift
    and Chess/Model/ChessRules.swift: the ray walk of the sliding pieces (walk
    while the square is on the board and empty, collecting it; then collect
    the blocking square too if it holds an opposing piece), the pawn's forward
    direction and the knight's jumps, with the plane geometry used to state
    what each finds. */
module Geometry {
  import opened Optional
  import opened Pieces
  import opened Util
  import opened Board

  /** Movement.swift's `Incrementer`: one step along a ray. */
  datatype Incrementer = Incrementer(rowInc: int, colInc: int)

  /** One of the eight king directions. */
  predicate IsUnitStep(d: Incrementer) {
    (d.rowInc != 0 || d.colInc != 0) && -1 <= d.rowInc <= 1 && -1 <= d.colInc <= 1
  }

  function Step(p: Coordinates, d: Incrementer): Coordinates {
    Coordinates(p.row + d.rowInc, p.col + d.colInc)
  }

  /** The square `k` steps from `from`. */
  function RaySquare(from: Coordinates, d: Incrementer, k: nat): Coordinates
    decreases k
  {
    if k == 0 then from else RaySquare(Step(from, d), d, k - 1)
  }

  /** How a walker sees a square. */
  datatype TileStatus = OffBoard | Vacant | Opponent | Friendly

  function Status(b: ChessBoard, p: Coordinates, team: Team): (s: TileStatus)
    ensures s == OffBoard <==> !IsValidTile(b, p)
    ensures s == Vacant <==> IsValidTile(b, p) && IsEmptyTile(b, p)
    ensures s == Opponent <==> IsValidTile(b, p) && ContainsOpposingTeam(b, p, team)
  {
    if !IsValidTile(b, p) then OffBoard
    else if IsEmptyTile(b, p) then Vacant
    else if ContainsOpposingTeam(b, p, team) then Opponent
    else Friendly
  }

  /** Squares left on the board ahead of `p`, along the leading component of `d`. */
  function RayMeasure(p: Coordinates, d: Incrementer): nat {
    if d.rowInc > 0 then Clip(8 - p.row)
    else if d.rowInc < 0 then Clip(p.row + 1)
    else if d.colInc > 0 then Clip(8 - p.col)
    else Clip(p.col + 1)
  }

  /** Each element is one step on from the one before. */
  predicate Consecutive(r: seq<Coordinates>, d: Incrementer) {
    forall i, j | 0 <= i < |r| && j == i + 1 && j < |r| :: r[j] == Step(r[i], d)
  }

  /** The loop `while isValidTile(p) && isEmptyTile(p) { append p; step }`
      followed by `if isValidTile(p) && containsOpposingTeam(p) { append p }`,
      started on square `p`. */
  function RayWalk(b: ChessBoard, p: Coordinates, team: Team, d: Incrementer): (r: seq<Coordinates>)
    requires IsUnitStep(d)
    ensures |r| > 0 ==> r[0] == p
    ensures Consecutive(r, d)
    ensures forall i | 0 <= i < |r| - 1 :: Status(b, r[i], team) == Vacant
    ensures |r| > 0 ==> Status(b, r[|r| - 1], team) in {Vacant, Opponent}
    ensures |r| == 0 ==> Status(b, p, team) in {OffBoard, Friendly}
    ensures |r| > 0 && Status(b, r[|r| - 1], team) == Vacant ==>
              Status(b, Step(r[|r| - 1], d), team) in {OffBoard, Friendly}
    decreases RayMeasure(p, d)
  {
    match Status(b, p, team)
    case Vacant => [p] + RayWalk(b, Step(p, d), team, d)
    case Opponent => [p]
    case _ => []
  }

  /** The targets of one direction from `from`. */
  function RayTargets(b: ChessBoard, from: Coordinates, team: Team, d: Incrementer): seq<Coordinates>
    requires IsUnitStep(d)
  {
    RayWalk(b, Step(from, d), team, d)
  }

  /** The directions walked one after the other, results concatenated. */
  function RaysTargets(b: ChessBoard, from: Coordinates, team: Team, dirs: seq<Incrementer>): seq<Coordinates>
    requires forall d | d in dirs :: IsUnitStep(d)
  {
    if dirs == [] then [] else RayTargets(b, from, team, dirs[0]) + RaysTargets(b, from, team, dirs[1..])
  }

  // ---------------------------------------------------------------------------
  // Geometry
  // ---------------------------------------------------------------------------

  function Sign(x: int): int {
    if x > 0 then 1 else if x < 0 then -1 else 0
  }

  /** `k * x` for a step component in {-1, 0, 1}, written without a product. */
  function Scale(k: int, x: int): int {
    if x == 0 then 0 else if x > 0 then k else -k
  }

  /** The unit step pointing from `from` towards `t`. */
  function Direction(from: Coordinates, t: Coordinates): Incrementer {
    Incrementer(Sign(t.row - from.row), Sign(t.col - from.col))
  }

  /** King-step distance. */
  function Distance(from: Coordinates, t: Coordinates): nat {
    var dr := Abs(t.row - from.row);
    var dc := Abs(t.col - from.col);
    if dr < dc then dc else dr
  }

  /** `t` is a different square on a rank, file or diagonal through `from`. */
  predicate Aligned(from: Coordinates, t: Coordinates) {
    from != t &&
    (t.row == from.row || t.col == from.col || Abs(t.row - from.row) == Abs(t.col - from.col))
  }

  predicate IsStraightLine(from: Coordinates, t: Coordinates) {
    from != t && (t.row == from.row || t.col == from.col)
  }

  predicate IsDiagonalLine(from: Coordinates, t: Coordinates) {
    from != t && Abs(t.row - from.row) == Abs(t.col - from.col)
  }

  predicate IsVacant(b: ChessBoard, p: Coordinates) {
    IsValidTile(b, p) && IsEmptyTile(b, p)
  }

  /** Every square strictly between `from` and `t` is on the board and empty. */
  predicate ClearPath(b: ChessBoard, from: Coordinates, t: Coordinates) {
    forall j | 1 <= j < Distance(from, t) :: IsVacant(b, RaySquare(from, Direction(from, t), j))
  }

  /** What a sliding piece of `team` on `from` may reach along `dirs`: an
      aligned square in one of those directions, with a clear path, that is
      empty or holds an opposing piece. */
  predicate Reachable(b: ChessBoard, from: Coordinates, team: Team, dirs: seq<Incrementer>, t: Coordinates) {
    Aligned(from, t) && Direction(from, t) in dirs && ClearPath(b, from, t) && Landable(b, t, team)
  }

  lemma {:induction false} RaySquareStep(p: Coordinates, d: Incrementer, k: nat)
    ensures RaySquare(p, d, k + 1) == Step(RaySquare(p, d, k), d)
    decreases k
  {
    if k > 0 {
      RaySquareStep(Step(p, d), d, k - 1);
    }
  }

  lemma {:induction false} RaySquareClosed(p: Coordinates, d: Incrementer, k: nat)
    requires IsUnitStep(d)
    ensures RaySquare(p, d, k) == Coordinates(p.row + Scale(k, d.rowInc), p.col + Scale(k, d.colInc))
    decreases k
  {
    if k > 0 {
      RaySquareClosed(Step(p, d), d, k - 1);
    }
  }

  lemma AlignedIsRaySquare(from: Coordinates, t: Coordinates)
    requires Aligned(from, t)
    ensures IsUnitStep(Direction(from, t)) && Distance(from, t) >= 1
    ensures t == RaySquare(from, Direction(from, t), Distance(from, t))
  {
    RaySquareClosed(from, Direction(from, t), Distance(from, t));
  }

  lemma RaySquareIsAligned(from: Coordinates, d: Incrementer, k: nat)
    requires IsUnitStep(d) && k >= 1
    ensures var t := RaySquare(from, d, k);
            Aligned(from, t) && Direction(from, t) == d && Distance(from, t) == k
  {
    RaySquareClosed(from, d, k);
  }

  lemma {:induction false} ConsecutiveOnRay(r: seq<Coordinates>, d: Incrementer, i: nat)
    requires |r| > 0 && Consecutive(r, d)
    requires i < |r|
    ensures r[i] == RaySquare(r[0], d, i)
  {
    if i > 0 {
      ConsecutiveOnRay(r, d, i - 1);
      assert r[i] == Step(r[i - 1], d);
      RaySquareStep(r[0], d, i - 1);
    }
  }

  /** Every target is `k` steps out, over vacant squares only, and is vacant or opposing. */
  lemma RayWalkSound(b: ChessBoard, p: Coordinates, team: Team, d: Incrementer, t: Coordinates)
    returns (k: nat)
    requires IsUnitStep(d)
    requires t in RayWalk(b, p, team, d)
    ensures t == RaySquare(p, d, k)
    ensures forall j | 0 <= j < k :: Status(b, RaySquare(p, d, j), team) == Vacant
    ensures Status(b, t, team) in {Vacant, Opponent}
  {
    var r := RayWalk(b, p, team, d);
    var i :| 0 <= i < |r| && r[i] == t;
    k := i;
    ConsecutiveOnRay(r, d, i);
    forall j | 0 <= j < k
      ensures Status(b, RaySquare(p, d, j), team) == Vacant
    {
      ConsecutiveOnRay(r, d, j);
    }
  }

  /** Every square reached over vacant squares that is vacant or opposing is a target. */
  lemma {:induction false} RayWalkComplete(b: ChessBoard, p: Coordinates, team: Team, d: Incrementer, k: nat)
    requires IsUnitStep(d)
    requires forall j | 0 <= j < k :: Status(b, RaySquare(p, d, j), team) == Vacant
    requires Status(b, RaySquare(p, d, k), team) in {Vacant, Opponent}
    ensures RaySquare(p, d, k) in RayWalk(b, p, team, d)
    decreases k
  {
    if k > 0 {
      assert Status(b, RaySquare(p, d, 0), team) == Vacant;
      forall j | 0 <= j < k - 1
        ensures Status(b, RaySquare(Step(p, d), d, j), team) == Vacant
      {
        assert RaySquare(p, d, j + 1) == RaySquare(Step(p, d), d, j);
      }
      RayWalkComplete(b, Step(p, d), team, d, k - 1);
    }
  }

  /** Vacant squares after the first step are vacant squares of the whole ray. */
  lemma ShiftVacant(b: ChessBoard, from: Coordinates, team: Team, d: Incrementer, k: nat)
    requires forall j | 0 <= j < k :: Status(b, RaySquare(Step(from, d), d, j), team) == Vacant
    ensures forall j | 1 <= j < k + 1 :: IsVacant(b, RaySquare(from, d, j))
  {
    forall j | 1 <= j < k + 1
      ensures IsVacant(b, RaySquare(from, d, j))
    {
      assert RaySquare(from, d, j) == RaySquare(Step(from, d), d, j - 1);
    }
  }

  lemma RayTargetSound(b: ChessBoard, from: Coordinates, team: Team, d: Incrementer, t: Coordinates)
    requires IsUnitStep(d)
    requires t in RayTargets(b, from, team, d)
    ensures Reachable(b, from, team, [d], t)
  {
    var k := RayWalkSound(b, Step(from, d), team, d, t);
    assert t == RaySquare(from, d, k + 1);
    RaySquareIsAligned(from, d, k + 1);
    ShiftVacant(b, from, team, d, k);
    assert Landable(b, t, team);
  }

  lemma RayTargetComplete(b: ChessBoard, from: Coordinates, team: Team, d: Incrementer, t: Coordinates)
    requires IsUnitStep(d)
    requires Reachable(b, from, team, [d], t)
    ensures t in RayTargets(b, from, team, d)
  {
    var p := Step(from, d);
    AlignedIsRaySquare(from, t);
    var k := Distance(from, t);
    forall j | 0 <= j < k - 1
      ensures Status(b, RaySquare(p, d, j), team) == Vacant
    {
      assert RaySquare(from, d, j + 1) == RaySquare(p, d, j);
    }
    assert RaySquare(from, d, k) == RaySquare(p, d, k - 1);
    RayWalkComplete(b, p, team, d, k - 1);
  }

  /** One direction: the walk finds exactly the squares reachable in that direction. */
  lemma RayTargetsIff(b: ChessBoard, from: Coordinates, team: Team, d: Incrementer)
    requires IsUnitStep(d)
    ensures forall t :: t in RayTargets(b, from, team, d) <==> Reachable(b, from, team, [d], t)
  {
    forall t
      ensures t in RayTargets(b, from, team, d) <==> Reachable(b, from, team, [d], t)
    {
      if t in RayTargets(b, from, team, d) {
        RayTargetSound(b, from, team, d, t);
      }
      if Reachable(b, from, team, [d], t) {
        RayTargetComplete(b, from, team, d, t);
      }
    }
  }

  /** All directions: the concatenated walks find exactly the squares
      reachable along one of `dirs`. */
  lemma {:induction false} RaysTargetsIff(b: ChessBoard, from: Coordinates, team: Team, dirs: seq<Incrementer>)
    requires forall d | d in dirs :: IsUnitStep(d)
    ensures forall t :: t in RaysTargets(b, from, team, dirs) <==> Reachable(b, from, team, dirs, t)
  {
    if dirs != [] {
      RayTargetsIff(b, from, team, dirs[0]);
      RaysTargetsIff(b, from, team, dirs[1..]);
      assert forall d :: d in dirs <==> d == dirs[0] || d in dirs[1..];
    }
  }

  predicate IsStraightUnit(d: Incrementer) {
    (d.rowInc == 0 && Abs(d.colInc) == 1) || (d.colInc == 0 && Abs(d.rowInc) == 1)
  }

  predicate IsDiagonalUnit(d: Incrementer) {
    Abs(d.rowInc) == 1 && Abs(d.colInc) == 1
  }

  /** Directions listing exactly the four orthogonal steps reach exactly the
      squares sharing a row or a column. */
  lemma StraightDirections(b: ChessBoard, from: Coordinates, team: Team, dirs: seq<Incrementer>)
    requires forall d :: d in dirs <==> IsStraightUnit(d)
    ensures forall t :: Reachable(b, from, team, dirs, t) <==>
      IsStraightLine(from, t) && ClearPath(b, from, t) && Landable(b, t, team)
  {
  }

  /** Directions listing exactly the four diagonal steps reach exactly the
      squares on a diagonal. */
  lemma DiagonalDirections(b: ChessBoard, from: Coordinates, team: Team, dirs: seq<Incrementer>)
    requires forall d :: d in dirs <==> IsDiagonalUnit(d)
    ensures forall t :: Reachable(b, from, team, dirs, t) <==>
      IsDiagonalLine(from, t) && ClearPath(b, from, t) && Landable(b, t, team)
  {
  }

  // ---------------------------------------------------------------------------
  // Pawns and knights
  // ---------------------------------------------------------------------------

  /** `n` rows towards the opponent and `dc` columns across: white pawns move
      towards row 0, black pawns towards row 7. */
  function Ahead(from: Coordinates, team: Team, n: int, dc: int): Coordinates {
    Coordinates(if team == White then from.row - n else from.row + n, from.col + dc)
  }

  /** A knight's jump: two squares one way and one the other. */
  predicate KnightJump(from: Coordinates, t: Coordinates) {
    (Abs(t.row - from.row) == 1 && Abs(t.col - from.col) == 2) ||
    (Abs(t.row - from.row) == 2 && Abs(t.col - from.col) == 1)
  }

  /** The eight jumps in the order both generators list them. */
  function KnightCandidates(from: Coordinates): seq<Coordinates> {
    [Coordinates(from.row + 1, from.col + 2), Coordinates(from.row + 2, from.col + 1),
     Coordinates(from.row + 1, from.col - 2), Coordinates(from.row + 2, from.col - 1),
     Coordinates(from.row - 1, from.col + 2), Coordinates(from.row - 2, from.col + 1),
     Coordinates(from.row - 1, from.col - 2), Coordinates(from.row - 2, from.col - 1)]
  }

  lemma KnightCandidatesAreJumps(from: Coordinates)
    ensures forall t :: t in KnightCandidates(from) <==> KnightJump(from, t)
    ensures Distinct(KnightCandidates(from)) && |KnightCandidates(from)| == 8
  {
    forall t | KnightJump(from, t)
      ensures t in KnightCandidates(from)
    {
      assert t.row - from.row in {-2, -1, 1, 2} && t.col - from.col in {-2, -1, 1, 2};
    }
  }
}
