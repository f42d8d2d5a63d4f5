/**
 * The player lookup of src/util/getPlayerPosition.js: a row-major scan of
 * the level for the first cell equal to a given glyph.
 */
module PlayerSearch {
  import opened Wrappers
  import opened Grid

  /** The first column `k >= j` of `row` holding `e`. */
  function FirstInRow<T(==)>(row: seq<T>, e: T, j: nat): Option<nat>
    decreases |row| - j
  {
    if j >= |row| then None
    else if row[j] == e then Some(j)
    else FirstInRow(row, e, j + 1)
  }

  /** The first cell holding `e` in row-major order, looking at rows `i` and below. */
  function FirstMatchFrom<T(==)>(level: seq<seq<T>>, e: T, i: nat): Option<Pos>
    decreases |level| - i
  {
    if i >= |level| then None
    else match FirstInRow(level[i], e, 0)
      case Some(j) => Some(Pos(j, i))
      case None => FirstMatchFrom(level, e, i + 1)
  }

  /** The value the engine's search returns: `Some({x, y})`, or `None` for `undefined`. */
  function FirstMatch<T(==)>(level: seq<seq<T>>, e: T): Option<Pos> {
    FirstMatchFrom(level, e, 0)
  }

  /** `p` holds `e` and no cell before it in row-major order does. */
  ghost predicate IsFirstMatch<T>(level: seq<seq<T>>, e: T, p: Pos) {
    && Within(level, p)
    && At(level, p) == e
    && forall c :: Within(level, c) && Before(c, p) ==> At(level, c) != e
  }

  /** No cell of `level` holds `e`. */
  ghost predicate NoMatch<T>(level: seq<seq<T>>, e: T) {
    forall c :: Within(level, c) ==> At(level, c) != e
  }

  lemma {:induction false} FirstInRowSpec<T>(row: seq<T>, e: T, j: nat)
    ensures FirstInRow(row, e, j).Some? ==>
      var k := FirstInRow(row, e, j).value;
      j <= k < |row| && row[k] == e && forall m :: j <= m < k ==> row[m] != e
    ensures FirstInRow(row, e, j).None? ==> forall m :: j <= m < |row| ==> row[m] != e
    decreases |row| - j
  {
    if j < |row| && row[j] != e {
      FirstInRowSpec(row, e, j + 1);
    }
  }

  lemma {:induction false} FirstMatchFromSpec<T>(level: seq<seq<T>>, e: T, i: nat)
    ensures FirstMatchFrom(level, e, i).Some? ==>
      var p := FirstMatchFrom(level, e, i).value;
      && i <= p.y && Within(level, p) && At(level, p) == e
      && forall c :: Within(level, c) && i <= c.y && Before(c, p) ==> At(level, c) != e
    ensures FirstMatchFrom(level, e, i).None? ==>
      forall c :: Within(level, c) && i <= c.y ==> At(level, c) != e
    decreases |level| - i
  {
    if i < |level| {
      FirstInRowSpec(level[i], e, 0);
      if FirstInRow(level[i], e, 0).None? {
        FirstMatchFromSpec(level, e, i + 1);
      }
    }
  }

  /** The search result is exactly the row-major first match, and `None` exactly when nothing matches. */
  lemma FirstMatchSpec<T>(level: seq<seq<T>>, e: T)
    ensures FirstMatch(level, e).Some? ==> IsFirstMatch(level, e, FirstMatch(level, e).value)
    ensures FirstMatch(level, e).None? <==> NoMatch(level, e)
  {
    FirstMatchFromSpec(level, e, 0);
  }

  /** At most one cell is a first match, so the search result is determined by `IsFirstMatch`. */
  lemma FirstMatchUnique<T>(level: seq<seq<T>>, e: T, p: Pos)
    ensures FirstMatch(level, e) == Some(p) <==> IsFirstMatch(level, e, p)
  {
    FirstMatchSpec(level, e);
    if IsFirstMatch(level, e, p) {
      assert FirstMatch(level, e).Some?;
      var q := FirstMatch(level, e).value;
      assert !Before(q, p) && !Before(p, q);
    }
  }

  /** When `p` is the only cell holding `e`, the search finds `p`. */
  lemma OnlyMatchIsFound<T>(level: seq<seq<T>>, e: T, p: Pos)
    requires Within(level, p) && At(level, p) == e
    requires forall c :: Within(level, c) && At(level, c) == e ==> c == p
    ensures FirstMatch(level, e) == Some(p)
  {
    FirstMatchSpec(level, e);
  }

  /**
   * getPlayerPosition: nested index loops with an early return on the first
   * cell equal to `playerEntity`; `None` models falling off the end
   * (`undefined`). Rows may have different lengths, as in the source.
   */
  method GetPlayerPosition<T(==)>(level: seq<seq<T>>, playerEntity: T) returns (r: Option<Pos>)
    ensures r == FirstMatch(level, playerEntity)
    ensures r.Some? ==> IsFirstMatch(level, playerEntity, r.value)
    ensures r.None? ==> NoMatch(level, playerEntity)
  {
    FirstMatchSpec(level, playerEntity);
    var i := 0;
    while i < |level|
      invariant 0 <= i <= |level|
      invariant FirstMatchFrom(level, playerEntity, i) == FirstMatch(level, playerEntity)
    {
      var j := 0;
      while j < |level[i]|
        invariant 0 <= j <= |level[i]|
        invariant FirstInRow(level[i], playerEntity, j) == FirstInRow(level[i], playerEntity, 0)
      {
        if level[i][j] == playerEntity {
          return Some(Pos(j, i));
        }
        j := j + 1;
      }
      i := i + 1;
    }
    return None;
  }
}
