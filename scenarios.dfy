/**
 * Two concrete games: pushing the only box onto the only goal wins, after
 * which moves are refused; and a player on the left edge cannot move left.
 */
module Scenarios {
  import opened Grid
  import opened PlayerSearch
  import opened LevelScan
  import opened Rules
  import opened Lifecycle

  /**
   * A 5 x 5 level: a goal at (2,0), a box at (2,1), the player at (2,2),
   * floor everywhere else.
   */
  function GoalAbove(): Level {
    [[Floor, Floor, Goal, Floor, Floor],
     [Floor, Floor, Box, Floor, Floor],
     [Floor, Floor, Player, Floor, Floor],
     [Floor, Floor, Floor, Floor, Floor],
     [Floor, Floor, Floor, Floor, Floor]]
  }

  /** A 5 x 5 level with the player at (0,2) and a box at (3,3). */
  function LeftEdge(): Level {
    [[Floor, Floor, Floor, Floor, Floor],
     [Floor, Floor, Floor, Floor, Floor],
     [Player, Floor, Floor, Floor, Floor],
     [Floor, Floor, Floor, Box, Floor],
     [Floor, Floor, Floor, Floor, Floor]]
  }

  /**
   * A tile that no other row holds and that its own row holds once shows in
   * that one cell only, and the scan lists that cell alone.
   */
  lemma OnlyAt(level: Level, e: Tile, p: Pos)
    requires Rect(level, 5, 5) && Within(level, p) && At(level, p) == e
    requires forall y :: 0 <= y < 5 && y != p.y ==> e !in level[y]
    requires forall x :: 0 <= x < 5 && x != p.x ==> level[p.y][x] != e
    ensures forall c :: Within(level, c) && At(level, c) == e ==> c == p
    ensures CellsOf(level, e) == [p]
  {
    forall c | Within(level, c) && At(level, c) == e ensures c == p {
      assert level[c.y][c.x] in level[c.y];
    }
    CellsOfSingle(level, e, p);
  }

  /** No cell of a 5 x 5 level whose rows lack BoxOnGoal shows one. */
  lemma NoBoxOnGoal(level: Level)
    requires Rect(level, 5, 5)
    requires forall y :: 0 <= y < 5 ==> BoxOnGoal !in level[y]
    ensures forall c :: Within(level, c) ==> At(level, c) != BoxOnGoal
  {
    forall c | Within(level, c) ensures At(level, c) != BoxOnGoal {
      assert level[c.y][c.x] in level[c.y];
    }
  }

  /** A 5 x 5 level with one player and one plain box is generated, and the constructor's game over it keeps the invariant. */
  lemma OneBoxStart(level: Level, p: Pos, b: Pos)
    requires Rect(level, 5, 5) && OnlyPlayerAt(level, p)
    requires forall c :: Within(level, c) ==> At(level, c) != BoxOnGoal
    requires CellsOf(level, Box) == [b]
    ensures GeneratedLevel(5, 5, 1, level)
    ensures var g := Initial(5, 5, level, map[1 := Floor]);
      && Invariant(g) && PlayerPos(g) == p && g.boxes == map[b := 1]
  {
    InitialInvariant(5, 5, 1, level, map[1 := Floor]);
    OnlyMatchIsFound(level, Player, p);
    assert Numbering([b]) == map[b := 1] by {
      assert [b][..0] == [];
    }
  }

  lemma GoalAbovePlayer()
    ensures Rect(GoalAbove(), 5, 5) && OnlyPlayerAt(GoalAbove(), Pos(2, 2))
  {
    OnlyAt(GoalAbove(), Player, Pos(2, 2));
  }

  lemma GoalAboveBox()
    ensures CellsOf(GoalAbove(), Box) == [Pos(2, 1)]
  {
    OnlyAt(GoalAbove(), Box, Pos(2, 1));
  }

  lemma GoalAboveGoal()
    ensures CellsOf(GoalAbove(), Goal) == [Pos(2, 0)]
  {
    OnlyAt(GoalAbove(), Goal, Pos(2, 0));
  }

  lemma GoalAboveNoBoxOnGoal()
    ensures forall c :: Within(GoalAbove(), c) ==> At(GoalAbove(), c) != BoxOnGoal
  {
    NoBoxOnGoal(GoalAbove());
  }

  /** The constructor's game over `GoalAbove` is the start of the winning scenario. */
  lemma GoalAboveStart(level: Level, g: Game)
    requires level == GoalAbove() && g == Initial(5, 5, level, map[1 := Floor])
    ensures GeneratedLevel(5, 5, 1, level)
    ensures && Invariant(g) && !g.won && g.moves == 0 && g.width == 5 && g.height == 5
      && PlayerPos(g) == Pos(2, 2) && g.playerLastTile == Floor
      && At(g.level, Pos(2, 1)) == Box && At(g.level, Pos(2, 0)) == Goal
      && g.boxes == map[Pos(2, 1) := 1] && g.goals == [Pos(2, 0)] && g.lastTiles == map[1 := Floor]
  {
    GoalAbovePlayer();
    GoalAboveBox();
    GoalAboveGoal();
    GoalAboveNoBoxOnGoal();
    OneBoxStart(level, Pos(2, 2), Pos(2, 1));
  }

  /**
   * Pushing a lone box up onto a lone goal from the player at (2,2): the box
   * shows BoxOnGoal at (2,0), the player stands at (2,1) over Floor, one move
   * is counted and the game is won; a second push up is refused and changes
   * nothing.
   */
  lemma PushUpOntoGoal(g: Game)
    requires Invariant(g) && !g.won && g.width == 5 && g.height == 5
    requires PlayerPos(g) == Pos(2, 2) && g.playerLastTile == Floor
    requires At(g.level, Pos(2, 1)) == Box && At(g.level, Pos(2, 0)) == Goal
    requires g.boxes == map[Pos(2, 1) := 1] && g.goals == [Pos(2, 0)] && g.lastTiles == map[1 := Floor]
    ensures var (g1, r1) := Step(g, Up);
      && r1 == Moved && Reply(r1)
      && At(g1.level, Pos(2, 0)) == BoxOnGoal
      && At(g1.level, Pos(2, 1)) == Player
      && At(g1.level, Pos(2, 2)) == Floor
      && g1.boxes == map[Pos(2, 0) := 1] && g1.playerLastTile == Floor
      && g1.moves == g.moves + 1 && g1.won
      && Step(g1, Up) == (g1, Refused)
  {
    PushEffect(g, Up);
  }

  /**
   * The left-edge scenario end to end: on the constructor's game over
   * `LeftEdge`, moving left is refused, nothing changes and no move is counted.
   */
  lemma LeftEdgeScenario(level: Level, g: Game)
    requires level == LeftEdge() && g == Initial(5, 5, level, map[1 := Floor])
    ensures Invariant(g)
    ensures Step(g, Left) == (g, Refused) && Step(g, Left).0.moves == 0
  {
    LeftEdgeStart(level, g);
    EdgeRefused(g, Left);
  }

  /**
   * The constructor's game over `LeftEdge` has the player on the left edge
   * with no move counted, so a move left is refused (`Rules.EdgeRefused`).
   */
  lemma LeftEdgeStart(level: Level, g: Game)
    requires level == LeftEdge() && g == Initial(5, 5, level, map[1 := Floor])
    ensures GeneratedLevel(5, 5, 1, level)
    ensures Invariant(g) && g.moves == 0 && PlayerPos(g) == Pos(0, 2)
    ensures AtEdge(g.width, g.height, PlayerPos(g), Left)
  {
    LeftEdgePlayer();
    LeftEdgeBox();
    LeftEdgeNoBoxOnGoal();
    OneBoxStart(level, Pos(0, 2), Pos(3, 3));
  }

  lemma LeftEdgePlayer()
    ensures Rect(LeftEdge(), 5, 5) && OnlyPlayerAt(LeftEdge(), Pos(0, 2))
  {
    OnlyAt(LeftEdge(), Player, Pos(0, 2));
  }

  lemma LeftEdgeBox()
    ensures CellsOf(LeftEdge(), Box) == [Pos(3, 3)]
  {
    OnlyAt(LeftEdge(), Box, Pos(3, 3));
  }

  lemma LeftEdgeNoBoxOnGoal()
    ensures forall c :: Within(LeftEdge(), c) ==> At(LeftEdge(), c) != BoxOnGoal
  {
    NoBoxOnGoal(LeftEdge());
  }
}
