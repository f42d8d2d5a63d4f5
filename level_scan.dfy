/**
 * The box and goal scan that the Sokoban constructor and `reset` run over a
 * freshly generated (or restored) level: a row-major walk that numbers the
 * box cells 1, 2, ... in visiting order and lists the goal cells in the same
 * order.
 */
module LevelScan {
  import opened Grid

  /** Cells (x, y) with x < j whose tile in `row` (row number y) is `e`, left to right. */
  function RowCells<T(==)>(row: seq<T>, e: T, y: int, j: nat): seq<Pos>
    requires j <= |row|
  {
    if j == 0 then []
    else RowCells(row, e, y, j - 1) + (if row[j - 1] == e then [Pos(j - 1, y)] else [])
  }

  /** Cells of the rows above row `i` whose tile is `e`, in row-major order. */
  function CellsUpTo<T(==)>(level: seq<seq<T>>, e: T, i: nat): seq<Pos>
    requires i <= |level|
  {
    if i == 0 then []
    else CellsUpTo(level, e, i - 1) + RowCells(level[i - 1], e, i - 1, |level[i - 1]|)
  }

  /** All cells of `level` whose tile is `e`, in row-major order. */
  function CellsOf<T(==)>(level: seq<seq<T>>, e: T): seq<Pos> {
    CellsUpTo(level, e, |level|)
  }

  /** Numbers the cells of `s` 1, 2, ... in order. */
  function Numbering(s: seq<Pos>): map<Pos, int> {
    if s == [] then map[] else Numbering(s[..|s| - 1])[s[|s| - 1] := |s|]
  }

  /** The box-position to box-id map the scan builds (`this.boxes`). */
  function ScanBoxes(level: Level): map<Pos, int> {
    Numbering(CellsOf(level, Box))
  }

  /** The goal list the scan builds (`this.boxGoals`). */
  function ScanGoals(level: Level): seq<Pos> {
    CellsOf(level, Goal)
  }

  /** `s` is strictly increasing in row-major order (so it has no repeats). */
  ghost predicate RowMajor(s: seq<Pos>) {
    forall a, b :: 0 <= a < b < |s| ==> Before(s[a], s[b])
  }

  lemma {:induction false} RowCellsSpec<T>(row: seq<T>, e: T, y: int, j: nat)
    requires j <= |row|
    ensures forall c :: c in RowCells(row, e, y, j) <==> c.y == y && 0 <= c.x < j && row[c.x] == e
    ensures RowMajor(RowCells(row, e, y, j))
  {
    if j > 0 {
      RowCellsSpec(row, e, y, j - 1);
      var s := RowCells(row, e, y, j - 1);
      if row[j - 1] == e {
        var s' := s + [Pos(j - 1, y)];
        forall a, b | 0 <= a < b < |s'| ensures Before(s'[a], s'[b]) {
          if b == |s| { assert s'[a] in s; }
        }
      }
    }
  }

  lemma {:induction false} CellsUpToSpec<T>(level: seq<seq<T>>, e: T, i: nat)
    requires i <= |level|
    ensures forall c :: c in CellsUpTo(level, e, i) <==> Within(level, c) && c.y < i && At(level, c) == e
    ensures RowMajor(CellsUpTo(level, e, i))
  {
    if i > 0 {
      CellsUpToSpec(level, e, i - 1);
      RowCellsSpec(level[i - 1], e, i - 1, |level[i - 1]|);
      var s := CellsUpTo(level, e, i - 1);
      var r := RowCells(level[i - 1], e, i - 1, |level[i - 1]|);
      var s' := s + r;
      forall a, b | 0 <= a < b < |s'| ensures Before(s'[a], s'[b]) {
        if a < |s| && b >= |s| {
          assert s'[a] in s && s'[b] in r;
        } else if a >= |s| {
          assert s'[a] == r[a - |s|] && s'[b] == r[b - |s|];
        }
      }
    }
  }

  /** The cells of `e` are found exactly, and in row-major order. */
  lemma CellsOfSpec<T>(level: seq<seq<T>>, e: T)
    ensures forall c :: c in CellsOf(level, e) <==> Within(level, c) && At(level, c) == e
    ensures RowMajor(CellsOf(level, e))
  {
    CellsUpToSpec(level, e, |level|);
  }

  lemma {:induction false} NumberingSpec(s: seq<Pos>)
    requires RowMajor(s)
    ensures forall c :: c in Numbering(s) <==> c in s
    ensures forall k :: 0 <= k < |s| ==> s[k] in Numbering(s) && Numbering(s)[s[k]] == k + 1
  {
    if s != [] {
      var s' := s[..|s| - 1];
      assert RowMajor(s');
      NumberingSpec(s');
      forall k | 0 <= k < |s| - 1 ensures s[k] != s[|s| - 1] {
        assert Before(s[k], s[|s| - 1]);
      }
      forall c | c in s ensures c in Numbering(s) {
        var k :| 0 <= k < |s| && s[k] == c;
        if k < |s| - 1 { assert s'[k] == c; }
      }
    }
  }

  /**
   * The scan gives ids 1..n to exactly the `Box` cells, in row-major order,
   * and lists exactly the `Goal` cells, in row-major order.
   */
  lemma ScanSpec(level: Level)
    ensures forall c :: c in ScanBoxes(level) <==> Within(level, c) && At(level, c) == Box
    ensures forall c :: c in ScanBoxes(level) ==> 1 <= ScanBoxes(level)[c] <= |CellsOf(level, Box)|
    ensures forall c, c' :: c in ScanBoxes(level) && c' in ScanBoxes(level) && Before(c, c') ==>
      ScanBoxes(level)[c] < ScanBoxes(level)[c']
    ensures forall k :: 0 <= k < |CellsOf(level, Box)| ==>
      CellsOf(level, Box)[k] in ScanBoxes(level) && ScanBoxes(level)[CellsOf(level, Box)[k]] == k + 1
    ensures forall c :: c in ScanGoals(level) <==> Within(level, c) && At(level, c) == Goal
    ensures RowMajor(ScanGoals(level))
  {
    var s := CellsOf(level, Box);
    CellsOfSpec(level, Box);
    CellsOfSpec(level, Goal);
    NumberingSpec(s);
    forall c | c in ScanBoxes(level) ensures 1 <= ScanBoxes(level)[c] <= |s| {
      var k :| 0 <= k < |s| && s[k] == c;
    }
    forall c, c' | c in ScanBoxes(level) && c' in ScanBoxes(level) && Before(c, c')
      ensures ScanBoxes(level)[c] < ScanBoxes(level)[c']
    {
      var k :| 0 <= k < |s| && s[k] == c;
      var k' :| 0 <= k' < |s| && s[k'] == c';
    }
  }

  /** A tile that shows in exactly one cell is listed exactly once. */
  lemma CellsOfSingle<T>(level: seq<seq<T>>, e: T, p: Pos)
    requires Within(level, p) && At(level, p) == e
    requires forall c :: Within(level, c) && At(level, c) == e ==> c == p
    ensures CellsOf(level, e) == [p]
  {
    CellsOfSpec(level, e);
    var s := CellsOf(level, e);
    assert p in s;
    forall i | 0 <= i < |s| ensures s[i] == p {
      assert s[i] in s;
    }
    assert |s| < 2 by {
      assert |s| >= 2 ==> Before(s[0], s[1]);
    }
  }

  lemma NumberingSnoc(s: seq<Pos>, c: Pos)
    ensures Numbering(s + [c]) == Numbering(s)[c := |s| + 1]
  {
    assert (s + [c])[..|s|] == s;
  }

  /** Extending a row scan by one cell appends that cell when it matches. */
  lemma RowCellsStep<T>(prefix: seq<Pos>, row: seq<T>, e: T, y: int, j: nat)
    requires j < |row|
    ensures prefix + RowCells(row, e, y, j + 1) ==
            (prefix + RowCells(row, e, y, j)) + (if row[j] == e then [Pos(j, y)] else [])
  {
    var s := RowCells(row, e, y, j);
    var tail := if row[j] == e then [Pos(j, y)] else [];
    assert RowCells(row, e, y, j + 1) == s + tail;
    assert prefix + (s + tail) == (prefix + s) + tail;
  }

  /**
   * The constructor's and `reset`'s scan: nested loops over rows and columns
   * that give each box cell the next `boxCounter` and push each goal cell.
   */
  method ScanLevel(level: Level) returns (boxes: map<Pos, int>, boxGoals: seq<Pos>)
    ensures boxes == ScanBoxes(level)
    ensures boxGoals == ScanGoals(level)
  {
    boxes, boxGoals := map[], [];
    var boxCounter := 1;
    ghost var boxCells: seq<Pos> := [];
    for i := 0 to |level|
      invariant boxCells == CellsUpTo(level, Box, i)
      invariant boxes == Numbering(boxCells) && boxCounter == |boxCells| + 1
      invariant boxGoals == CellsUpTo(level, Goal, i)
    {
      ghost var rowStart := boxCells;
      ghost var goalStart := boxGoals;
      assert rowStart + RowCells(level[i], Box, i, 0) == rowStart;
      assert goalStart + RowCells(level[i], Goal, i, 0) == goalStart;
      for j := 0 to |level[i]|
        invariant boxCells == rowStart + RowCells(level[i], Box, i, j)
        invariant boxes == Numbering(boxCells) && boxCounter == |boxCells| + 1
        invariant boxGoals == goalStart + RowCells(level[i], Goal, i, j)
      {
        RowCellsStep(rowStart, level[i], Box, i, j);
        RowCellsStep(goalStart, level[i], Goal, i, j);
        if level[i][j] == Box {
          NumberingSnoc(boxCells, Pos(j, i));
          boxes := boxes[Pos(j, i) := boxCounter];
          boxCounter := boxCounter + 1;
          boxCells := boxCells + [Pos(j, i)];
        }
        if level[i][j] == Goal {
          boxGoals := boxGoals + [Pos(j, i)];
        }
      }
    }
  }
}
