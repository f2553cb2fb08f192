/** Chess/Model/Util.swift: the team swap and king-step adjacency. */
module Util {
  import opened Pieces

  function Abs(x: int): (r: nat)
    ensures r == x || r == -x
  {
    if x < 0 then -x else x
  }

  /** The other side; with two teams this is all one needs to know. */
  function OpposingTeam(team: Team): (r: Team)
    ensures r != team
  {
    match team
    case Black => White
    case White => Black
  }

  lemma OpposingTeamInvolution(team: Team)
    ensures OpposingTeam(OpposingTeam(team)) == team
  {
  }

  /** True when `b` is within one row and one column of `a`; this includes
      `a` itself. */
  predicate AreAdjacent(a: Coordinates, b: Coordinates)
    ensures AreAdjacent(a, b) <==> -1 <= a.row - b.row <= 1 && -1 <= a.col - b.col <= 1
  {
    Abs(a.row - b.row) < 2 && Abs(a.col - b.col) < 2
  }

  lemma AdjacencySymmetricReflexive(a: Coordinates, b: Coordinates)
    ensures AreAdjacent(a, b) <==> AreAdjacent(b, a)
    ensures AreAdjacent(a, a)
  {
  }
}
