/**
 * The move-resolution state machine of the `Sokoban` class, as a function
 * on the whole game state. `moveUp`, `moveDown`, `moveLeft` and `moveRight`
 * are one algorithm over a unit step; `Step` is that algorithm.
 */
module Rules {
  import opened Grid
  import opened PlayerSearch
  import opened LevelScan

  datatype Direction = Up | Down | Left | Right

  /** The neighbour of `p` in direction `d`; row numbers grow downwards. */
  function Next(p: Pos, d: Direction): Pos {
    match d
    case Up => Pos(p.x, p.y - 1)
    case Down => Pos(p.x, p.y + 1)
    case Left => Pos(p.x - 1, p.y)
    case Right => Pos(p.x + 1, p.y)
  }

  /**
   * What a move method returns: `true`, `false`, or (for a push against a
   * second box) the level array itself.
   */
  datatype MoveResult = Moved | Refused | LevelReturned

  /** The fields of a `Sokoban` object that the moves and `reset` read or write. */
  datatype Game = Game(
    width: int,
    height: int,
    level: Level,
    boxes: map<Pos, int>,       // this.boxes: box position -> box id
    lastTiles: map<int, Tile>,  // this.boxesLastTiles: box id -> tile under the box
    playerLastTile: Tile,       // tile under the player
    goals: seq<Pos>,            // this.boxGoals
    moves: nat,
    won: bool,                  // this.hasWon
    original: Level)            // this.originalLevel

  predicate InBounds(width: int, height: int, p: Pos) {
    0 <= p.x < width && 0 <= p.y < height
  }

  predicate IsBoxTile(t: Tile) {
    t == Box || t == BoxOnGoal
  }

  /** The tiles that can lie under the player or a box. */
  predicate IsGround(t: Tile) {
    t == Floor || t == Goal
  }

  ghost predicate OnlyPlayerAt(level: Level, p: Pos) {
    && Within(level, p)
    && At(level, p) == Player
    && forall c :: Within(level, c) && At(level, c) == Player ==> c == p
  }

  /** Exactly one cell shows the player, and the row-major search finds it. */
  ghost predicate PlayerUnique(level: Level) {
    FirstMatch(level, Player).Some? && OnlyPlayerAt(level, FirstMatch(level, Player).value)
  }

  /**
   * The keys of `boxes` are exactly the cells showing a box, no two keys
   * share an id, and every id has a last tile.
   */
  ghost predicate BoxesMatchLevel(g: Game) {
    && (forall c :: c in g.boxes ==> Within(g.level, c) && IsBoxTile(At(g.level, c)))
    && (forall c :: Within(g.level, c) && IsBoxTile(At(g.level, c)) ==> c in g.boxes)
    && (forall c, c' :: c in g.boxes && c' in g.boxes && c != c' ==> g.boxes[c] != g.boxes[c'])
    && (forall c :: c in g.boxes ==> g.boxes[c] in g.lastTiles)
  }

  /**
   * What `reset` relies on: the retained original level is a generated level
   * (one player, at least one box, no box on a goal) and every id it numbers
   * has a last tile.
   */
  ghost predicate ResetReady(g: Game) {
    && Rect(g.original, g.width, g.height)
    && PlayerUnique(g.original)
    && (forall c :: Within(g.original, c) ==> At(g.original, c) != BoxOnGoal)
    && |CellsOf(g.original, Box)| >= 1
    && (forall k :: 1 <= k <= |CellsOf(g.original, Box)| ==> k in g.lastTiles)
  }

  /** The structural invariant every move keeps and every move relies on. */
  ghost predicate WellFormed(g: Game) {
    && Rect(g.level, g.width, g.height)
    && PlayerUnique(g.level)
    && BoxesMatchLevel(g)
    && (forall k :: k in g.lastTiles ==> IsGround(g.lastTiles[k]))
    && IsGround(g.playerLastTile)
    && ResetReady(g)
  }

  /** getPlayerPosition(this.level, player) on a well-formed game. */
  function PlayerPos(g: Game): (p: Pos)
    requires WellFormed(g)
    ensures OnlyPlayerAt(g.level, p)
  {
    FirstMatch(g.level, Player).value
  }

  /** checkWin, from its documented meaning: every box stands on a goal coordinate. */
  predicate CheckWin(boxes: map<Pos, int>, goals: seq<Pos>) {
    forall c :: c in boxes ==> c in goals
  }

  /**
   * "Moving the player" from `p` to `t`: `p` shows the player's last tile
   * again, the tile at `t` becomes the player's last tile, `t` shows the
   * player, and the move is counted. A plain step is exactly this.
   */
  function MovePlayer(g: Game, p: Pos, t: Pos): Game
    requires Within(g.level, p) && Within(g.level, t)
  {
    var l1 := SetAt(g.level, p, g.playerLastTile);
    var under := At(l1, t);
    g.(level := SetAt(l1, t, Player), playerLastTile := under, moves := g.moves + 1)
  }

  /**
   * "Moving the box" from `t1` to `t2`: its id changes key, `t1` shows the
   * box's last tile again, the tile at `t2` becomes the box's last tile, and
   * `t2` shows BoxOnGoal on a Goal, Box otherwise.
   */
  function MoveBox(g: Game, t1: Pos, t2: Pos): (r: Game)
    requires Within(g.level, t1) && Within(g.level, t2)
    requires t1 in g.boxes && g.boxes[t1] in g.lastTiles
    ensures |r.level| == |g.level| && forall y :: 0 <= y < |g.level| ==> |r.level[y]| == |g.level[y]|
  {
    var box := g.boxes[t1];
    var l1 := SetAt(g.level, t1, g.lastTiles[box]);
    var lastTiles := g.lastTiles[box := At(l1, t2)];
    var l2 := SetAt(l1, t2, if At(l1, t2) == Goal then BoxOnGoal else Box);
    g.(level := l2, boxes := (g.boxes - {t1})[t2 := box], lastTiles := lastTiles)
  }

  /** A push: move the box, then the player onto the box's old cell, then check the win. */
  function Push(g: Game, p: Pos, t1: Pos, t2: Pos): Game
    requires Within(g.level, p) && Within(g.level, t1) && Within(g.level, t2)
    requires t1 in g.boxes && g.boxes[t1] in g.lastTiles
  {
    var moved := MovePlayer(MoveBox(g, t1, t2), p, t1);
    if CheckWin(moved.boxes, moved.goals) then moved.(won := true) else moved
  }

  /** The move is a plain step onto a free cell (not off-grid, not a wall, not a box). */
  ghost predicate WalksTo(g: Game, d: Direction)
    requires WellFormed(g)
  {
    var t := Next(PlayerPos(g), d);
    InBounds(g.width, g.height, t) && At(g.level, t) != Wall && !IsBoxTile(At(g.level, t))
  }

  /** The move pushes a box at the target onto the free cell beyond it. */
  ghost predicate PushesBox(g: Game, d: Direction)
    requires WellFormed(g)
  {
    var t1 := Next(PlayerPos(g), d);
    var t2 := Next(t1, d);
    && InBounds(g.width, g.height, t1) && IsBoxTile(At(g.level, t1))
    && InBounds(g.width, g.height, t2) && At(g.level, t2) != Wall && !IsBoxTile(At(g.level, t2))
  }

  /** `g2` is `g` after the player steps from `p` to `t`, stated cell by cell and field by field. */
  ghost predicate SteppedAt(g: Game, g2: Game, p: Pos, t: Pos)
    requires Within(g.level, p) && Within(g.level, t)
  {
    && SameShape(g.level, g2.level)
    && At(g2.level, t) == Player
    && At(g2.level, p) == g.playerLastTile
    && (forall c :: Within(g.level, c) && c != p && c != t ==> At(g2.level, c) == At(g.level, c))
    && g2 == g.(level := g2.level, playerLastTile := At(g.level, t), moves := g.moves + 1)
  }

  /**
   * `g2` is `g` after the player at `p` pushes the box at `t1` onto `t2`,
   * stated cell by cell and field by field.
   */
  ghost predicate PushedAt(g: Game, g2: Game, p: Pos, t1: Pos, t2: Pos)
    requires Within(g.level, p) && Within(g.level, t1) && Within(g.level, t2)
    requires t1 in g.boxes && g.boxes[t1] in g.lastTiles
  {
    var box := g.boxes[t1];
    var boxes := (g.boxes - {t1})[t2 := box];
    && SameShape(g.level, g2.level)
    && At(g2.level, t2) == (if At(g.level, t2) == Goal then BoxOnGoal else Box)
    && At(g2.level, t1) == Player
    && At(g2.level, p) == g.playerLastTile
    && (forall c :: Within(g.level, c) && c != p && c != t1 && c != t2 ==> At(g2.level, c) == At(g.level, c))
    && g2 == g.(level := g2.level, boxes := boxes, lastTiles := g.lastTiles[box := At(g.level, t2)],
                playerLastTile := g.lastTiles[box], moves := g.moves + 1,
                won := g.won || CheckWin(boxes, g.goals))
  }

  /** A plain step on explicit cells, with no invariant in view. */
  lemma MovePlayerAt(g: Game, p: Pos, t: Pos)
    requires Within(g.level, p) && Within(g.level, t) && p != t
    ensures SteppedAt(g, MovePlayer(g, p, t), p, t)
  {
  }

  /** The box half of a push on explicit cells. */
  lemma MoveBoxAt(g: Game, t1: Pos, t2: Pos)
    requires Within(g.level, t1) && Within(g.level, t2) && t1 != t2
    requires t1 in g.boxes && g.boxes[t1] in g.lastTiles
    ensures var box := g.boxes[t1]; var g2 := MoveBox(g, t1, t2);
      && SameShape(g.level, g2.level)
      && At(g2.level, t1) == g.lastTiles[box]
      && At(g2.level, t2) == (if At(g.level, t2) == Goal then BoxOnGoal else Box)
      && (forall c :: Within(g.level, c) && c != t1 && c != t2 ==> At(g2.level, c) == At(g.level, c))
      && g2 == g.(level := g2.level, boxes := (g.boxes - {t1})[t2 := box],
                  lastTiles := g.lastTiles[box := At(g.level, t2)])
  {
  }

  /** A push on explicit cells, with no invariant in view (keeps the proof small). */
  lemma PushAt(g: Game, p: Pos, t1: Pos, t2: Pos)
    requires Within(g.level, p) && Within(g.level, t1) && Within(g.level, t2)
    requires p != t1 && p != t2 && t1 != t2
    requires t1 in g.boxes && g.boxes[t1] in g.lastTiles
    ensures PushedAt(g, Push(g, p, t1, t2), p, t1, t2)
  {
    var gb := MoveBox(g, t1, t2);
    MoveBoxAt(g, t1, t2);
    MovePlayerAt(gb, p, t1);
  }

  /** The level-dependent half of `WellFormed` after a plain step, on explicit cells. */
  lemma WalkKeepsBoxesAt(g: Game, g2: Game, p: Pos, t: Pos)
    requires Within(g.level, p) && Within(g.level, t) && p != t
    requires OnlyPlayerAt(g.level, p) && BoxesMatchLevel(g)
    requires IsGround(At(g.level, t)) && IsGround(g.playerLastTile)
    requires SteppedAt(g, g2, p, t)
    ensures OnlyPlayerAt(g2.level, t)
    ensures BoxesMatchLevel(g2)
  {
    forall c | Within(g2.level, c) && IsBoxTile(At(g2.level, c))
      ensures c in g2.boxes
    {
      assert c != p && c != t;
    }
  }

  /** A plain step keeps the game well formed. */
  lemma WalkKeepsWellFormed(g: Game, d: Direction)
    requires WellFormed(g) && WalksTo(g, d)
    ensures WellFormed(MovePlayer(g, PlayerPos(g), Next(PlayerPos(g), d)))
  {
    var p := PlayerPos(g);
    var t := Next(p, d);
    var g2 := MovePlayer(g, p, t);
    assert At(g.level, t) != Player;
    MovePlayerAt(g, p, t);
    WalkKeepsBoxesAt(g, g2, p, t);
    OnlyMatchIsFound(g2.level, Player, t);
  }

  /** After a push the box keys are exactly the cells showing a box. */
  lemma PushKeepsBoxCellsAt(g: Game, g2: Game, p: Pos, t1: Pos, t2: Pos)
    requires Within(g.level, p) && Within(g.level, t1) && Within(g.level, t2)
    requires p != t1 && p != t2 && t1 != t2
    requires OnlyPlayerAt(g.level, p) && BoxesMatchLevel(g)
    requires IsGround(At(g.level, t2)) && IsGround(g.playerLastTile)
    requires t1 in g.boxes && g.boxes[t1] in g.lastTiles
    requires PushedAt(g, g2, p, t1, t2)
    ensures forall c :: Within(g2.level, c) && IsBoxTile(At(g2.level, c)) ==> c in g2.boxes
    ensures forall c :: c in g2.boxes ==> Within(g2.level, c) && IsBoxTile(At(g2.level, c))
  {
    forall c | Within(g2.level, c) && IsBoxTile(At(g2.level, c))
      ensures c in g2.boxes
    {
      if c != t2 {
        assert c != p && c != t1;
      }
    }
    forall c | c in g2.boxes
      ensures Within(g2.level, c) && IsBoxTile(At(g2.level, c))
    {
      if c != t2 {
        assert c in g.boxes && c != t1 && c != p;
      }
    }
  }

  /** After a push no two box keys share an id, and every id keeps a last tile. */
  lemma PushKeepsBoxIdsAt(g: Game, g2: Game, p: Pos, t1: Pos, t2: Pos)
    requires Within(g.level, p) && Within(g.level, t1) && Within(g.level, t2)
    requires BoxesMatchLevel(g)
    requires t1 in g.boxes && g.boxes[t1] in g.lastTiles
    requires PushedAt(g, g2, p, t1, t2)
    ensures forall c, c' :: c in g2.boxes && c' in g2.boxes && c != c' ==> g2.boxes[c] != g2.boxes[c']
    ensures forall c :: c in g2.boxes ==> g2.boxes[c] in g2.lastTiles
  {
    forall c, c' | c in g2.boxes && c' in g2.boxes && c != c'
      ensures g2.boxes[c] != g2.boxes[c']
    {
      if c != t2 && c' != t2 {
        assert g2.boxes[c] == g.boxes[c] && g2.boxes[c'] == g.boxes[c'];
      } else if c == t2 {
        assert c' in g.boxes && c' != t1;
      } else {
        assert c in g.boxes && c != t1;
      }
    }
  }

  /** After a push the player is alone at the box's old cell. */
  lemma PushMovesPlayerAt(g: Game, g2: Game, p: Pos, t1: Pos, t2: Pos)
    requires Within(g.level, p) && Within(g.level, t1) && Within(g.level, t2)
    requires p != t1 && p != t2 && t1 != t2
    requires OnlyPlayerAt(g.level, p) && IsGround(At(g.level, t2)) && IsGround(g.playerLastTile)
    requires t1 in g.boxes && g.boxes[t1] in g.lastTiles
    requires PushedAt(g, g2, p, t1, t2)
    ensures OnlyPlayerAt(g2.level, t1)
  {
  }

  /** The effects of a push, on explicit cells, keep the game well formed. */
  lemma PushedKeepsWellFormed(g: Game, g2: Game, p: Pos, t1: Pos, t2: Pos)
    requires WellFormed(g) && OnlyPlayerAt(g.level, p)
    requires Within(g.level, t1) && Within(g.level, t2) && p != t1 && p != t2 && t1 != t2
    requires IsBoxTile(At(g.level, t1)) && IsGround(At(g.level, t2))
    requires t1 in g.boxes && g.boxes[t1] in g.lastTiles
    requires PushedAt(g, g2, p, t1, t2)
    ensures WellFormed(g2)
  {
    PushKeepsBoxCellsAt(g, g2, p, t1, t2);
    PushKeepsBoxIdsAt(g, g2, p, t1, t2);
    PushMovesPlayerAt(g, g2, p, t1, t2);
    OnlyMatchIsFound(g2.level, Player, t1);
  }

  /** A push keeps the game well formed. */
  lemma PushKeepsWellFormed(g: Game, d: Direction)
    requires WellFormed(g) && PushesBox(g, d)
    ensures var p := PlayerPos(g); var t1 := Next(p, d);
      t1 in g.boxes && g.boxes[t1] in g.lastTiles && WellFormed(Push(g, p, t1, Next(t1, d)))
  {
    var p := PlayerPos(g);
    var t1 := Next(p, d);
    var t2 := Next(t1, d);
    assert At(g.level, t2) != Player;
    assert t1 in g.boxes;
    PushAt(g, p, t1, t2);
    PushedKeepsWellFormed(g, Push(g, p, t1, t2), p, t1, t2);
  }

  /**
   * One call of moveUp/moveDown/moveLeft/moveRight: refuse once won; find
   * the player; refuse off-grid or wall targets; for a box target refuse an
   * off-grid or wall cell beyond it, hand back the level for a second box,
   * and otherwise push; for a free target, step.
   */
  function Step(g: Game, d: Direction): (res: (Game, MoveResult))
    requires WellFormed(g)
    ensures WellFormed(res.0)
    ensures res.1 == Moved ==> res.0.moves == g.moves + 1
    ensures res.1 != Moved ==> res.0 == g
    ensures res.0.goals == g.goals
  {
    if g.won then (g, Refused)
    else
      var p := PlayerPos(g);
      var t1 := Next(p, d);
      if !InBounds(g.width, g.height, t1) then (g, Refused)
      else if At(g.level, t1) == Wall then (g, Refused)
      else if IsBoxTile(At(g.level, t1)) then
        var t2 := Next(t1, d);
        if !InBounds(g.width, g.height, t2) then (g, Refused)
        else if At(g.level, t2) == Wall then (g, Refused)
        else if IsBoxTile(At(g.level, t2)) then (g, LevelReturned)
        else
          PushKeepsWellFormed(g, d);
          (Push(g, p, t1, t2), Moved)
      else
        WalkKeepsWellFormed(g, d);
        (MovePlayer(g, p, t1), Moved)
  }

  /**
   * The tile that is really at `c`: what the player or box standing there
   * hides (its last tile), otherwise what the cell shows.
   */
  function Terrain(g: Game, c: Pos): Tile
    requires Within(g.level, c)
  {
    var t := At(g.level, c);
    if t == Player then g.playerLastTile
    else if IsBoxTile(t) && c in g.boxes && g.boxes[c] in g.lastTiles then g.lastTiles[g.boxes[c]]
    else t
  }

  /** A box shows as BoxOnGoal exactly when its last tile is a Goal. */
  ghost predicate Consistent(g: Game) {
    forall c :: c in g.boxes && Within(g.level, c) && g.boxes[c] in g.lastTiles ==>
      (At(g.level, c) == BoxOnGoal <==> g.lastTiles[g.boxes[c]] == Goal)
  }

  /** The goal list is exactly the set of cells whose terrain is a Goal. */
  ghost predicate GoalsMatchTerrain(g: Game) {
    && (forall c :: c in g.goals ==> Within(g.level, c) && Terrain(g, c) == Goal)
    && (forall c :: Within(g.level, c) && Terrain(g, c) == Goal ==> c in g.goals)
  }

  /** The won flag agrees with the win check. */
  ghost predicate WonMeansSolved(g: Game) {
    g.won <==> CheckWin(g.boxes, g.goals)
  }

  /** The game invariant: well formed, consistent box glyphs, goals where the terrain has them, honest won flag. */
  ghost predicate Invariant(g: Game) {
    WellFormed(g) && Consistent(g) && GoalsMatchTerrain(g) && WonMeansSolved(g)
  }

  /** A plain step leaves every cell's terrain as it was, and box glyphs consistent. */
  lemma WalkKeepsTerrainAt(g: Game, g2: Game, p: Pos, t: Pos)
    requires Within(g.level, p) && Within(g.level, t) && p != t
    requires OnlyPlayerAt(g.level, p) && IsGround(At(g.level, t)) && IsGround(g.playerLastTile)
    requires SteppedAt(g, g2, p, t)
    ensures forall c :: Within(g.level, c) ==> Within(g2.level, c) && Terrain(g2, c) == Terrain(g, c)
    ensures Consistent(g) ==> Consistent(g2)
  {
    assert At(g2.level, p) == g.playerLastTile;
    assert At(g2.level, t) == Player;
  }

  /** A push leaves every cell's terrain as it was. */
  lemma PushKeepsTerrainAt(g: Game, g2: Game, p: Pos, t1: Pos, t2: Pos)
    requires Within(g.level, p) && Within(g.level, t1) && Within(g.level, t2)
    requires p != t1 && p != t2 && t1 != t2
    requires OnlyPlayerAt(g.level, p) && BoxesMatchLevel(g)
    requires IsBoxTile(At(g.level, t1)) && IsGround(At(g.level, t2)) && IsGround(g.playerLastTile)
    requires t1 in g.boxes && g.boxes[t1] in g.lastTiles
    requires PushedAt(g, g2, p, t1, t2)
    ensures forall c :: Within(g.level, c) ==> Within(g2.level, c) && Terrain(g2, c) == Terrain(g, c)
  {
    var box := g.boxes[t1];
    forall c | Within(g.level, c)
      ensures Terrain(g2, c) == Terrain(g, c)
    {
      if c != p && c != t1 && c != t2 && IsBoxTile(At(g.level, c)) {
        assert c in g.boxes && g.boxes[c] != box;
      }
    }
  }

  /** A push keeps box glyphs consistent with their last tiles. */
  lemma PushKeepsConsistentAt(g: Game, g2: Game, p: Pos, t1: Pos, t2: Pos)
    requires Within(g.level, p) && Within(g.level, t1) && Within(g.level, t2)
    requires p != t1 && p != t2 && t1 != t2
    requires OnlyPlayerAt(g.level, p) && BoxesMatchLevel(g) && Consistent(g)
    requires IsGround(At(g.level, t2))
    requires t1 in g.boxes && g.boxes[t1] in g.lastTiles
    requires PushedAt(g, g2, p, t1, t2)
    ensures Consistent(g2)
  {
    var box := g.boxes[t1];
    forall c | c in g2.boxes && Within(g2.level, c) && g2.boxes[c] in g2.lastTiles
      ensures At(g2.level, c) == BoxOnGoal <==> g2.lastTiles[g2.boxes[c]] == Goal
    {
      if c != t2 {
        assert c in g.boxes && c != t1 && c != p && g.boxes[c] != box;
      }
    }
  }

  /** The terrain of every cell of `g` is the same in `g2`, which has the same shape. */
  ghost predicate TerrainKept(g: Game, g2: Game) {
    && SameShape(g.level, g2.level)
    && forall c :: Within(g.level, c) ==> Within(g2.level, c) && Terrain(g2, c) == Terrain(g, c)
  }

  lemma PushKeepsTerrain(g: Game, d: Direction)
    requires WellFormed(g) && !g.won && PushesBox(g, d)
    ensures TerrainKept(g, Step(g, d).0)
    ensures Consistent(g) ==> Consistent(Step(g, d).0)
  {
    var p := PlayerPos(g);
    var t1 := Next(p, d);
    var t2 := Next(t1, d);
    assert At(g.level, t2) != Player && t1 in g.boxes;
    var g2 := Push(g, p, t1, t2);
    assert Step(g, d).0 == g2;
    PushAt(g, p, t1, t2);
    PushKeepsTerrainAt(g, g2, p, t1, t2);
    if Consistent(g) {
      PushKeepsConsistentAt(g, g2, p, t1, t2);
    }
  }

  lemma WalkKeepsTerrain(g: Game, d: Direction)
    requires WellFormed(g) && !g.won && WalksTo(g, d)
    ensures TerrainKept(g, Step(g, d).0)
    ensures Consistent(g) ==> Consistent(Step(g, d).0)
  {
    var p := PlayerPos(g);
    var t := Next(p, d);
    assert At(g.level, t) != Player;
    var g2 := MovePlayer(g, p, t);
    assert Step(g, d).0 == g2;
    MovePlayerAt(g, p, t);
    WalkKeepsTerrainAt(g, g2, p, t);
  }

  /**
   * Tile conservation: a move never changes the terrain of any cell; players
   * and boxes only trade places over it. It also keeps box glyphs consistent.
   */
  lemma StepKeepsTerrain(g: Game, d: Direction)
    requires WellFormed(g)
    ensures TerrainKept(g, Step(g, d).0)
    ensures Consistent(g) ==> Consistent(Step(g, d).0)
  {
    if Step(g, d).1 == Moved {
      if PushesBox(g, d) {
        PushKeepsTerrain(g, d);
      } else {
        WalkKeepsTerrain(g, d);
      }
    }
  }

  /** The won flag stays honest: a push sets it from the win check, a plain step leaves boxes and flag alone. */
  lemma StepKeepsWonMeansSolved(g: Game, d: Direction)
    requires WellFormed(g) && WonMeansSolved(g)
    ensures WonMeansSolved(Step(g, d).0)
  {
    var (g', r) := Step(g, d);
    if r == Moved {
      var p := PlayerPos(g);
      var t1 := Next(p, d);
      if IsBoxTile(At(g.level, t1)) {
        var t2 := Next(t1, d);
        assert g' == Push(g, p, t1, t2);
      } else {
        assert g' == MovePlayer(g, p, t1);
      }
    }
  }

  /** Goals that match the terrain of `g` match the terrain of `g2` when terrain and goal list are kept. */
  lemma GoalsFollowTerrain(g: Game, g2: Game)
    requires TerrainKept(g, g2) && g2.goals == g.goals && GoalsMatchTerrain(g)
    ensures GoalsMatchTerrain(g2)
  {
    forall c | Within(g2.level, c) && Terrain(g2, c) == Goal
      ensures c in g2.goals
    {
      assert Within(g.level, c);
    }
  }

  /** Every move keeps the game invariant. */
  lemma StepKeepsInvariant(g: Game, d: Direction)
    requires Invariant(g)
    ensures Invariant(Step(g, d).0)
  {
    var g2 := Step(g, d).0;
    StepKeepsTerrain(g, d);
    StepKeepsWonMeansSolved(g, d);
    GoalsFollowTerrain(g, g2);
  }

  /**
   * Which calls are refused (`false`), which hand back the level, and which
   * move: the won check, then the edge and wall checks on the target, then
   * the edge, wall and box checks on the cell beyond a box.
   */
  lemma StepOutcome(g: Game, d: Direction)
    requires WellFormed(g)
    ensures var r := Step(g, d).1; var t1 := Next(PlayerPos(g), d); var t2 := Next(t1, d);
      && (r == Refused <==>
            || g.won
            || !InBounds(g.width, g.height, t1)
            || At(g.level, t1) == Wall
            || (IsBoxTile(At(g.level, t1)) && (!InBounds(g.width, g.height, t2) || At(g.level, t2) == Wall)))
      && (r == LevelReturned <==>
            && !g.won
            && InBounds(g.width, g.height, t1) && IsBoxTile(At(g.level, t1))
            && InBounds(g.width, g.height, t2) && IsBoxTile(At(g.level, t2)))
      && (r == Moved <==> !g.won && (WalksTo(g, d) || PushesBox(g, d)))
  {
  }

  /** The edge test the source writes per direction (`y === 0`, `x === width - 1`, ...). */
  predicate AtEdge(width: int, height: int, p: Pos, d: Direction) {
    match d
    case Up => p.y == 0
    case Down => p.y == height - 1
    case Left => p.x == 0
    case Right => p.x == width - 1
  }

  /**
   * The source's per-direction edge tests on the player and on the target
   * are exactly "the target (resp. the cell beyond it) is off the grid".
   */
  lemma EdgeChecksMatchSource(g: Game, d: Direction)
    requires WellFormed(g)
    ensures var p := PlayerPos(g); var t1 := Next(p, d);
      && (!InBounds(g.width, g.height, t1) <==> AtEdge(g.width, g.height, p, d))
      && (InBounds(g.width, g.height, t1) ==>
            (!InBounds(g.width, g.height, Next(t1, d)) <==> AtEdge(g.width, g.height, t1, d)))
  {
  }

  /** Boundary: a player on the edge it moves towards is refused, and nothing changes. */
  lemma EdgeRefused(g: Game, d: Direction)
    requires WellFormed(g) && AtEdge(g.width, g.height, PlayerPos(g), d)
    ensures Step(g, d) == (g, Refused)
  {
    EdgeChecksMatchSource(g, d);
  }

  /**
   * A plain step onto a free cell: the player trades places with the
   * target's tile (which becomes the player's last tile), every other cell
   * and every other field stays, and the move is counted. The win is not
   * re-checked.
   */
  lemma WalkEffect(g: Game, d: Direction)
    requires WellFormed(g) && !g.won && WalksTo(g, d)
    ensures var p := PlayerPos(g); var t := Next(p, d);
      && Step(g, d).1 == Moved && p != t && IsGround(At(g.level, t))
      && SteppedAt(g, Step(g, d).0, p, t)
  {
    var p := PlayerPos(g);
    var t := Next(p, d);
    assert At(g.level, t) != Player;
    assert Step(g, d).0 == MovePlayer(g, p, t);
    MovePlayerAt(g, p, t);
  }

  /**
   * A push: the box id moves from the target to the cell beyond, which shows
   * BoxOnGoal exactly when it was a Goal and becomes the box's last tile; the
   * box's old last tile passes to the player, who leaves its own last tile
   * behind; no other cell and no other box changes; the win is re-checked.
   */
  lemma PushEffect(g: Game, d: Direction)
    requires WellFormed(g) && !g.won && PushesBox(g, d)
    ensures var p := PlayerPos(g); var t1 := Next(p, d); var t2 := Next(t1, d);
      && Step(g, d).1 == Moved
      && p != t1 && p != t2 && t1 != t2 && IsGround(At(g.level, t2))
      && t1 in g.boxes && g.boxes[t1] in g.lastTiles
      && PushedAt(g, Step(g, d).0, p, t1, t2)
  {
    var p := PlayerPos(g);
    var t1 := Next(p, d);
    var t2 := Next(t1, d);
    assert At(g.level, t2) != Player && t1 in g.boxes;
    assert Step(g, d).0 == Push(g, p, t1, t2);
    PushAt(g, p, t1, t2);
  }

  /**
   * Under the invariant, the game is won exactly when no cell shows a plain
   * Box: every box stands on a goal.
   */
  lemma WonIffNoBareBox(g: Game)
    requires Invariant(g)
    ensures g.won <==> forall c :: Within(g.level, c) ==> At(g.level, c) != Box
  {
    if g.won {
      forall c | c in g.boxes ensures At(g.level, c) == BoxOnGoal {
        assert c in g.goals;
        assert Terrain(g, c) == Goal;
      }
    } else {
      var c :| c in g.boxes && c !in g.goals;
      assert Terrain(g, c) != Goal;
      assert At(g.level, c) == Box;
    }
  }

  /**
   * How a JavaScript caller reads a move's reply in a condition: `false` is
   * falsy, while `true` and the level array are both truthy.
   */
  predicate Truthy(r: MoveResult) {
    r != Refused
  }

  /**
   * As written, a push against a second box hands back the level: a caller
   * testing the reply sees success, although nothing moved.
   */
  lemma BlockedPushReadsAsSuccess(g: Game, d: Direction)
    requires WellFormed(g) && !g.won
    requires var t1 := Next(PlayerPos(g), d); var t2 := Next(t1, d);
      && InBounds(g.width, g.height, t1) && IsBoxTile(At(g.level, t1))
      && InBounds(g.width, g.height, t2) && IsBoxTile(At(g.level, t2))
    ensures Truthy(Step(g, d).1) && Step(g, d).0 == g
  {
    StepOutcome(g, d);
  }

  /** The documented reply, "whether it was possible to move the player". */
  function Reply(r: MoveResult): (moved: bool)
    ensures moved ==> Truthy(r)
  {
    r == Moved
  }

  /** The documented reply is true exactly when the move changed the game. */
  lemma ReplyIffStateChanged(g: Game, d: Direction)
    requires WellFormed(g)
    ensures Reply(Step(g, d).1) <==> Step(g, d).0 != g
  {
  }
}
