/**
 * The `Sokoban` class: the game object whose fields the constructor fills,
 * `reset` restores and the four move methods update in place.
 */
module Engine {
  import opened Grid
  import opened PlayerSearch
  import opened LevelScan
  import opened Config
  import opened Rules
  import opened Lifecycle

  class Sokoban {
    const width: int
    const height: int
    const originalLevel: Level
    var level: Level
    var playerLastTile: Tile
    var boxesLastTiles: map<int, Tile>
    /** The misspelled field that `reset` clears instead of `boxesLastTiles`; nothing reads it. */
    var boxesLastTile: map<int, Tile>
    var boxes: map<Pos, int>
    var boxGoals: seq<Pos>
    var hasWon: bool
    var moves: nat

    /** The object's fields as a game state. */
    function Model(): Game
      reads this
    {
      Game(width, height, level, boxes, boxesLastTiles, playerLastTile, boxGoals, moves, hasWon, originalLevel)
    }

    ghost predicate Valid()
      reads this
    {
      WellFormed(Model())
    }

    /**
     * The constructor after its checks have passed and the level has been
     * generated: keep the level and a copy of it, then scan for boxes and goals.
     */
    constructor (width: int, height: int, boxCount: int, generated: Level, generatedLastTiles: map<int, Tile>)
      requires CheckOptions(width, height, boxCount).Success?
      requires GeneratedLevel(width, height, DefaultBoxes(boxCount), generated)
      requires FreshLastTiles(generatedLastTiles, DefaultBoxes(boxCount))
      ensures Model() == Initial(width, height, generated, generatedLastTiles)
      ensures Valid() && Invariant(Model())
      ensures boxesLastTile == map[]
    {
      this.width := width;
      this.height := height;
      playerLastTile := Floor;
      boxesLastTiles := generatedLastTiles;
      boxesLastTile := map[];
      hasWon := false;
      moves := 0;
      level := generated;
      originalLevel := generated;
      var scannedBoxes, scannedGoals := ScanLevel(generated);
      boxes := scannedBoxes;
      boxGoals := scannedGoals;
      InitialInvariant(width, height, DefaultBoxes(boxCount), generated, generatedLastTiles);
    }

    /**
     * Restore the original level and rescan it; the box last tiles are NOT
     * restored, because the clear goes to the misspelled `boxesLastTile`.
     */
    method Reset()
      modifies this
      ensures Model() == ResetAsWritten(old(Model()))
      ensures boxesLastTiles == old(boxesLastTiles) && boxesLastTile == map[]
      ensures old(Valid()) ==> Valid()
    {
      ghost var before := Model();
      level := originalLevel;
      playerLastTile := Floor;
      boxesLastTile := map[];
      hasWon := false;
      moves := 0;
      boxes, boxGoals := ScanLevel(level);
      if WellFormed(before) {
        ResetAsWrittenSpec(before);
      }
    }

    /**
     * moveUp/moveDown/moveLeft/moveRight, one algorithm over the direction:
     * the fields change exactly as `Step` says, in the source's order of
     * writes.
     */
    method Move(d: Direction) returns (r: MoveResult)
      requires Valid()
      modifies this`level, this`playerLastTile, this`boxesLastTiles, this`boxes, this`hasWon, this`moves
      ensures (Model(), r) == Step(old(Model()), d)
      ensures boxesLastTile == old(boxesLastTile)
      ensures Valid()
      ensures old(Invariant(Model())) ==> Invariant(Model())
    {
      ghost var before := Model();
      if hasWon {
        return Refused;
      }
      var playerPosition := GetPlayerPosition(level, Player);
      var p := playerPosition.value;
      assert p == PlayerPos(before);
      var t1 := Next(p, d);
      if !InBounds(width, height, t1) {
        return Refused;
      }
      if At(level, t1) == Wall {
        return Refused;
      }
      if IsBoxTile(At(level, t1)) {
        var t2 := Next(t1, d);
        if !InBounds(width, height, t2) {
          return Refused;
        }
        if At(level, t2) == Wall {
          return Refused;
        }
        if IsBoxTile(At(level, t2)) {
          return LevelReturned;
        }
        PushFields(p, t1, t2);
        r := Moved;
        assert Step(before, d) == (Push(before, p, t1, t2), Moved);
      } else {
        MovePlayerFields(p, t1);
        r := Moved;
        assert Step(before, d) == (MovePlayer(before, p, t1), Moved);
      }
      if Invariant(before) {
        StepKeepsInvariant(before, d);
      }
    }

    /** A push's writes: move the box, move the player, then re-check the win. */
    method PushFields(p: Pos, t1: Pos, t2: Pos)
      requires Within(level, p) && Within(level, t1) && Within(level, t2)
      requires t1 in boxes && boxes[t1] in boxesLastTiles
      modifies this`level, this`playerLastTile, this`boxesLastTiles, this`boxes, this`hasWon, this`moves
      ensures Model() == Push(old(Model()), p, t1, t2)
      ensures boxesLastTile == old(boxesLastTile)
    {
      MoveBoxFields(t1, t2);
      MovePlayerFields(p, t1);
      if CheckWin(boxes, boxGoals) {
        hasWon := true;
      }
    }

    /** The "moving the box" writes of a push, from `t1` to `t2`. */
    method MoveBoxFields(t1: Pos, t2: Pos)
      requires Within(level, t1) && Within(level, t2)
      requires t1 in boxes && boxes[t1] in boxesLastTiles
      modifies this`level, this`playerLastTile, this`boxesLastTiles, this`boxes, this`hasWon, this`moves
      ensures Model() == MoveBox(old(Model()), t1, t2)
      ensures boxesLastTile == old(boxesLastTile)
    {
      var box := boxes[t1];
      boxes := boxes - {t1};
      boxes := boxes[t2 := box];
      level := SetAt(level, t1, boxesLastTiles[box]);
      boxesLastTiles := boxesLastTiles[box := At(level, t2)];
      level := SetAt(level, t2, if At(level, t2) == Goal then BoxOnGoal else Box);
    }

    /** The "moving the player" writes of any move, from `p` to `t`. */
    method MovePlayerFields(p: Pos, t: Pos)
      requires Within(level, p) && Within(level, t)
      modifies this`level, this`playerLastTile, this`boxesLastTiles, this`boxes, this`hasWon, this`moves
      ensures Model() == MovePlayer(old(Model()), p, t)
      ensures boxesLastTile == old(boxesLastTile)
    {
      level := SetAt(level, p, playerLastTile);
      playerLastTile := At(level, t);
      level := SetAt(level, t, Player);
      moves := moves + 1;
    }

    method MoveUp() returns (r: MoveResult)
      requires Valid()
      modifies this`level, this`playerLastTile, this`boxesLastTiles, this`boxes, this`hasWon, this`moves
      ensures (Model(), r) == Step(old(Model()), Up) && Valid()
      ensures boxesLastTile == old(boxesLastTile)
    {
      r := Move(Up);
    }

    method MoveDown() returns (r: MoveResult)
      requires Valid()
      modifies this`level, this`playerLastTile, this`boxesLastTiles, this`boxes, this`hasWon, this`moves
      ensures (Model(), r) == Step(old(Model()), Down) && Valid()
      ensures boxesLastTile == old(boxesLastTile)
    {
      r := Move(Down);
    }

    method MoveLeft() returns (r: MoveResult)
      requires Valid()
      modifies this`level, this`playerLastTile, this`boxesLastTiles, this`boxes, this`hasWon, this`moves
      ensures (Model(), r) == Step(old(Model()), Left) && Valid()
      ensures boxesLastTile == old(boxesLastTile)
    {
      r := Move(Left);
    }

    method MoveRight() returns (r: MoveResult)
      requires Valid()
      modifies this`level, this`playerLastTile, this`boxesLastTiles, this`boxes, this`hasWon, this`moves
      ensures (Model(), r) == Step(old(Model()), Right) && Valid()
      ensures boxesLastTile == old(boxesLastTile)
    {
      r := Move(Right);
    }
  }
}
