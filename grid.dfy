/**
 * The grid model: the tile vocabulary, cell coordinates and the level as a
 * sequence of rows. A cell (x, y) lives in row y, column x; row 0 is the top.
 */
module Grid {
  /** The six kinds of tile a cell can show. */
  datatype Tile = Floor | Wall | Goal | Player | Box | BoxOnGoal

  /** A cell coordinate: column `x`, row `y`. */
  datatype Pos = Pos(x: int, y: int)

  /** A level is a list of rows, as in the engine's `level[y][x]`. */
  type Level = seq<seq<Tile>>

  /** `p` names an existing cell of `level` (rows may differ in length). */
  predicate Within<T>(level: seq<seq<T>>, p: Pos) {
    0 <= p.y < |level| && 0 <= p.x < |level[p.y]|
  }

  function At<T>(level: seq<seq<T>>, p: Pos): T
    requires Within(level, p)
  {
    level[p.y][p.x]
  }

  /** Every one of the `height` rows has `width` cells. */
  predicate Rect<T>(level: seq<seq<T>>, width: int, height: int) {
    |level| == height && forall y :: 0 <= y < |level| ==> |level[y]| == width
  }

  /** `a` and `b` have the same number of rows, and each row the same number of cells. */
  predicate SameShape<T>(a: seq<seq<T>>, b: seq<seq<T>>) {
    |a| == |b| && forall y :: 0 <= y < |a| ==> |a[y]| == |b[y]|
  }

  /** The level with cell `p` overwritten by `t`: `level[p.y][p.x] = t`. */
  function SetAt<T>(level: seq<seq<T>>, p: Pos, t: T): (r: seq<seq<T>>)
    requires Within(level, p)
    ensures SameShape(level, r)
    ensures At(r, p) == t
    ensures forall c :: Within(level, c) && c != p ==> At(r, c) == At(level, c)
  {
    level[p.y := level[p.y][p.x := t]]
  }

  /** Row-major order: `a` is visited before `b` by a scan of rows top to bottom, each left to right. */
  predicate Before(a: Pos, b: Pos) {
    a.y < b.y || (a.y == b.y && a.x < b.x)
  }
}
