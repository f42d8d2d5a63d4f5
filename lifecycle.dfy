/**
 * Creating and resetting a game: the state the `Sokoban` constructor builds
 * from a generated level, and the state `reset` restores.
 */
module Lifecycle {
  import opened Grid
  import opened PlayerSearch
  import opened LevelScan
  import opened Rules

  /**
   * What the level generator hands over: a `width` x `height` level with
   * exactly one player, exactly `boxes` (at least one) plain Box cells and no
   * BoxOnGoal (a box generated on a goal is turned into a plain goal).
   */
  ghost predicate GeneratedLevel(width: int, height: int, boxes: int, level: Level) {
    && Rect(level, width, height)
    && (exists p :: OnlyPlayerAt(level, p))
    && (forall c :: Within(level, c) ==> At(level, c) != BoxOnGoal)
    && |CellsOf(level, Box)| == boxes
    && boxes >= 1
  }

  /**
   * The box last-tile map the generator fills: Floor under boxes 1..boxes
   * (a retried generation may leave further keys behind, also Floor).
   */
  ghost predicate FreshLastTiles(lastTiles: map<int, Tile>, boxes: int) {
    && (forall k :: 1 <= k <= boxes ==> k in lastTiles)
    && (forall k :: k in lastTiles ==> lastTiles[k] == Floor)
  }

  /** The constructor's state: the level kept twice, the scan's boxes and goals, nothing moved. */
  function Initial(width: int, height: int, level: Level, lastTiles: map<int, Tile>): Game {
    Game(width, height, level, ScanBoxes(level), lastTiles, Floor, ScanGoals(level), 0, false, level)
  }

  /**
   * `reset` as written: the level, player last tile, boxes, goals, won flag
   * and counter are restored, but the clear aimed at the box last tiles
   * writes a misspelled field, so `lastTiles` is kept as it is.
   */
  function ResetAsWritten(g: Game): Game {
    g.(level := g.original, playerLastTile := Floor, boxes := ScanBoxes(g.original),
       goals := ScanGoals(g.original), won := false, moves := 0)
  }

  /** Every recorded box last tile put back to Floor, as the generator left it. */
  function AllFloor(lastTiles: map<int, Tile>): (r: map<int, Tile>)
    ensures r.Keys == lastTiles.Keys
    ensures forall k :: k in r ==> r[k] == Floor
  {
    map k | k in lastTiles :: Floor
  }

  /** `reset` as intended: also restores the box last tiles. */
  function ResetIntended(g: Game): Game {
    ResetAsWritten(g).(lastTiles := AllFloor(g.lastTiles))
  }

  lemma InitialWellFormed(width: int, height: int, boxes: int, level: Level, lastTiles: map<int, Tile>)
    requires GeneratedLevel(width, height, boxes, level)
    requires forall k :: 1 <= k <= boxes ==> k in lastTiles
    requires forall k :: k in lastTiles ==> IsGround(lastTiles[k])
    ensures WellFormed(Initial(width, height, level, lastTiles))
    ensures WonMeansSolved(Initial(width, height, level, lastTiles))
  {
    var g := Initial(width, height, level, lastTiles);
    var p :| OnlyPlayerAt(level, p);
    OnlyMatchIsFound(level, Player, p);
    ScanSpec(level);
    forall c, c' | c in g.boxes && c' in g.boxes && c != c'
      ensures g.boxes[c] != g.boxes[c']
    {
      assert Before(c, c') || Before(c', c);
    }
    var c0 := CellsOf(level, Box)[0];
    assert c0 in g.boxes && c0 !in g.goals;
  }

  /**
   * The constructor establishes the game invariant: box ids 1..n on the box
   * cells in row-major order, goals in row-major order, and the won flag off.
   */
  lemma InitialInvariant(width: int, height: int, boxes: int, level: Level, lastTiles: map<int, Tile>)
    requires GeneratedLevel(width, height, boxes, level)
    requires FreshLastTiles(lastTiles, boxes)
    ensures Invariant(Initial(width, height, level, lastTiles))
  {
    InitialWellFormed(width, height, boxes, level, lastTiles);
    ScanSpec(level);
    var g := Initial(width, height, level, lastTiles);
    forall c | Within(level, c) ensures Terrain(g, c) == Goal <==> At(level, c) == Goal {
    }
  }

  /** The retained original level is still a generated level. */
  lemma OriginalIsGenerated(g: Game)
    requires WellFormed(g)
    ensures GeneratedLevel(g.width, g.height, |CellsOf(g.original, Box)|, g.original)
  {
    assert OnlyPlayerAt(g.original, FirstMatch(g.original, Player).value);
  }

  /**
   * `reset` as written restores a well-formed game equal to a freshly
   * constructed one, except that the box last tiles are the ones play left.
   */
  lemma ResetAsWrittenSpec(g: Game)
    requires WellFormed(g)
    ensures ResetAsWritten(g) == Initial(g.width, g.height, g.original, g.lastTiles)
    ensures WellFormed(ResetAsWritten(g)) && WonMeansSolved(ResetAsWritten(g))
    ensures ResetAsWritten(g).lastTiles == g.lastTiles
  {
    OriginalIsGenerated(g);
    InitialWellFormed(g.width, g.height, |CellsOf(g.original, Box)|, g.original, g.lastTiles);
  }

  /**
   * The defect of `reset` as written: if play left box `k` resting on a goal,
   * the restored box `k` shows a plain Box over a Goal last tile, and its
   * cell has goal terrain that the goal list does not contain.
   */
  lemma ResetKeepsStaleGoal(g: Game, k: int)
    requires WellFormed(g)
    requires 1 <= k <= |CellsOf(g.original, Box)| && g.lastTiles[k] == Goal
    ensures !Consistent(ResetAsWritten(g))
    ensures !GoalsMatchTerrain(ResetAsWritten(g))
  {
    var r := ResetAsWritten(g);
    ScanSpec(g.original);
    var c := CellsOf(g.original, Box)[k - 1];
    assert c in r.boxes && r.boxes[c] == k;
    assert At(r.level, c) == Box;
    assert Terrain(r, c) == Goal && c !in r.goals;
  }

  /**
   * `reset` as intended restores exactly a freshly constructed game (with
   * Floor under every box), which satisfies the full game invariant.
   */
  lemma ResetIntendedRestoresInitial(g: Game)
    requires WellFormed(g)
    ensures ResetIntended(g) == Initial(g.width, g.height, g.original, AllFloor(g.lastTiles))
    ensures Invariant(ResetIntended(g))
  {
    OriginalIsGenerated(g);
    InitialInvariant(g.width, g.height, |CellsOf(g.original, Box)|, g.original, AllFloor(g.lastTiles));
  }

  /** Resetting twice is resetting once, both as written and as intended. */
  lemma ResetIdempotent(g: Game)
    ensures ResetAsWritten(ResetAsWritten(g)) == ResetAsWritten(g)
    ensures ResetIntended(ResetIntended(g)) == ResetIntended(g)
  {
  }

  /** A move changes neither the dimensions, the original level nor which ids have last tiles. */
  lemma StepKeepsResetData(g: Game, d: Direction)
    requires WellFormed(g)
    ensures var g' := Step(g, d).0;
      && g'.width == g.width && g'.height == g.height && g'.original == g.original
      && g'.lastTiles.Keys == g.lastTiles.Keys
  {
    if Step(g, d).1 == Moved {
      if PushesBox(g, d) {
        PushEffect(g, d);
      } else {
        WalkEffect(g, d);
      }
    }
  }

  /** Resetting (as intended) after a move gives the same game as resetting before it. */
  lemma ResetIntendedForgetsStep(g: Game, d: Direction)
    requires WellFormed(g)
    ensures ResetIntended(Step(g, d).0) == ResetIntended(g)
  {
    StepKeepsResetData(g, d);
    assert AllFloor(Step(g, d).0.lastTiles) == AllFloor(g.lastTiles);
  }
}
