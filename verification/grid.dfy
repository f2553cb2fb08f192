/** A rectangular grid of optional occupants, the shape of both boards in the
    source (`[[ChessTile]]` in Chess/Model/Chess.swift and `[[ChessPiece?]]` in
    Chess/Model/ChessGame.swift): writing one cell, moving an occupant from one
    cell to another, and counting occupied cells. */
module Grid {
  import opened Optional

  predicate InGrid<T>(g: seq<seq<Option<T>>>, row: int, col: int) {
    0 <= row < |g| && 0 <= col < |g[row]|
  }

  /** `g[row][col] = v`. */
  function Write<T>(g: seq<seq<Option<T>>>, row: int, col: int, v: Option<T>): (r: seq<seq<Option<T>>>)
    requires InGrid(g, row, col)
    ensures |r| == |g| && forall i | 0 <= i < |g| :: |r[i]| == |g[i]|
    ensures r[row][col] == v
    ensures forall i, j | InGrid(g, i, j) && (i != row || j != col) :: r[i][j] == g[i][j]
  {
    g[row := g[row][col := v]]
  }

  /** `g[to] = g[from]; g[from] = nil`: the occupant of `from` replaces whatever
      stood on `to`, and `from` is left empty (so when `from == to` the occupant
      is lost). */
  function Relocate<T>(g: seq<seq<Option<T>>>, from: (int, int), to: (int, int)): (r: seq<seq<Option<T>>>)
    requires InGrid(g, from.0, from.1) && InGrid(g, to.0, to.1)
    ensures |r| == |g| && forall i | 0 <= i < |g| :: |r[i]| == |g[i]|
  {
    Write(Write(g, to.0, to.1, g[from.0][from.1]), from.0, from.1, None)
  }

  lemma RelocateCells<T>(g: seq<seq<Option<T>>>, from: (int, int), to: (int, int))
    requires InGrid(g, from.0, from.1) && InGrid(g, to.0, to.1)
    ensures var r := Relocate(g, from, to);
            r[from.0][from.1] == None &&
            (from != to ==> r[to.0][to.1] == g[from.0][from.1]) &&
            forall i, j | InGrid(g, i, j) && (i, j) != from && (i, j) != to :: r[i][j] == g[i][j]
  {
  }

  function RowCount<T>(row: seq<Option<T>>): nat {
    if row == [] then 0 else (if row[|row| - 1].Some? then 1 else 0) + RowCount(row[..|row| - 1])
  }

  /** The number of occupied cells. */
  function Count<T>(g: seq<seq<Option<T>>>): nat {
    if g == [] then 0 else RowCount(g[|g| - 1]) + Count(g[..|g| - 1])
  }

  lemma {:induction false} RowCountWrite<T>(row: seq<Option<T>>, col: int, v: Option<T>)
    requires 0 <= col < |row|
    ensures RowCount(row[col := v]) + (if row[col].Some? then 1 else 0) == RowCount(row) + (if v.Some? then 1 else 0)
  {
    var n := |row| - 1;
    if col < n {
      assert row[col := v][..n] == row[..n][col := v];
      RowCountWrite(row[..n], col, v);
    } else {
      assert row[col := v][..n] == row[..n];
    }
  }

  lemma {:induction false} CountWrite<T>(g: seq<seq<Option<T>>>, row: int, col: int, v: Option<T>)
    requires InGrid(g, row, col)
    ensures Count(Write(g, row, col, v)) + (if g[row][col].Some? then 1 else 0) == Count(g) + (if v.Some? then 1 else 0)
  {
    var n := |g| - 1;
    if row < n {
      assert Write(g, row, col, v)[..n] == Write(g[..n], row, col, v);
      CountWrite(g[..n], row, col, v);
    } else {
      assert Write(g, row, col, v)[..n] == g[..n];
      RowCountWrite(g[row], col, v);
    }
  }

  /** Relocating removes exactly the occupant of the destination, if there
      was one (which is the moved occupant itself when `from == to`); nothing
      is created. */
  lemma RelocateCount<T>(g: seq<seq<Option<T>>>, from: (int, int), to: (int, int))
    requires InGrid(g, from.0, from.1) && InGrid(g, to.0, to.1)
    ensures Count(Relocate(g, from, to)) == Count(g) - (if g[to.0][to.1].Some? then 1 else 0)
  {
    var g1 := Write(g, to.0, to.1, g[from.0][from.1]);
    CountWrite(g, to.0, to.1, g[from.0][from.1]);
    CountWrite(g1, from.0, from.1, None);
  }
}
