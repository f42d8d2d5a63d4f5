# Sokoban engine — a Dafny model

This project models the core of a small JavaScript Sokoban engine: the
`Sokoban` class and its player-search helper. Specifically:

- the constructor's parameter checks;
- the row-major scan that numbers the boxes and lists the goals;
- `reset`;
- the four move methods. They are one algorithm over a direction.

A level is a grid of tiles: Player, Box, BoxOnGoal, Goal, Wall and Floor.
The engine keeps two remembered tiles:

- the tile the player stands on (`playerLastTile`);
- the tile each box stands on, keyed by box id (`boxesLastTiles`).

It also keeps a map from box cells to box ids, the list of goal cells, a
won flag and a move counter.

The model has two layers:

- **Pure layer.** `Rules.Step` is the pure specification of one move on a
  `Game` value. `Lifecycle.Initial`, `ResetAsWritten` and `ResetIntended`
  describe construction and reset.
- **Imperative layer.** `Engine.Sokoban` is a class whose fields are the
  object's fields. Its constructor, `Reset` and `Move` update them in the
  source's order of writes. Each is proved equal to the pure layer through
  `Model()`.

The properties proved on top include:

- a game invariant that every move preserves;
- iff characterisations of when a move is refused, handed back or performed;
- the precise effect of a walk and of a push;
- the won flag meaning "no bare box";
- reset properties;
- properties of move sequences;
- two defects of the source. Each has an as-written model and a corrected one.

## Model

| member | source | states |
|---|---|---|
| Config.CheckOptions | src/index.js:49-88 | The constructor accepts exactly when width and height are at least 5 and the defaulted box count is between 1 and width*height. On success it uses the defaulted count (0 becomes 1). Each rejection names a numeric check that is violated; it never rejects for the glyphs. |
| Config.ValidateOptions | src/index.js:49-111 | All the constructor's checks in source order: it accepts exactly when the numeric checks pass and the six glyphs are pairwise distinct. It rejects for non-unique glyphs exactly when the numeric checks passed, and every rejection names a violated check. |
| Config.AppearancesUnique | src/index.js:98-111 | The double loop over the six glyphs accepts exactly when they are pairwise distinct. |
| Config.GlyphsIdentifyTiles | src/index.js:98-111 | With distinct glyphs, comparing a cell's glyph with a kind's glyph is the same as comparing tile kinds. This is why the model can work on tile kinds. |
| PlayerSearch.GetPlayerPosition | src/util/getPlayerPosition.js:1-7 | The nested loop returns the first matching cell in row-major order, or nothing when no cell matches. |
| PlayerSearch.FirstInRowSpec | src/util/getPlayerPosition.js:3-5 | The column scan finds the leftmost match at or after column j, or reports that none exists. |
| PlayerSearch.FirstMatchFromSpec | src/util/getPlayerPosition.js:2-6 | The row scan from row i finds the first match in row-major order, or reports that none exists. |
| PlayerSearch.FirstMatchSpec | src/util/getPlayerPosition.js:1-7 | The search result is the first match. It is absent exactly when no cell matches. |
| PlayerSearch.FirstMatchUnique | src/util/getPlayerPosition.js:1-7 | The search returns p exactly when p is the first match. |
| PlayerSearch.OnlyMatchIsFound | src/util/getPlayerPosition.js:1-7 | When only one cell holds the entity, the search finds that cell. |
| LevelScan.ScanLevel | src/index.js:199-209 | The constructor's nested loops give the box cells ids 1, 2, ... and collect the goal cells. The results equal `ScanBoxes` and `ScanGoals`. |
| LevelScan.CellsOfSpec | src/index.js:200-208 | The cells the scan visits for a tile are exactly that tile's cells, in strictly increasing row-major order. |
| LevelScan.NumberingSpec | src/index.js:203-206 | Numbering a list without repeats gives the k-th cell id k+1, and covers exactly the listed cells. |
| LevelScan.ScanSpec | src/index.js:199-209 | The box map covers exactly the Box cells with ids 1..n, increasing in row-major order. The goal list holds exactly the Goal cells, in row-major order. |
| Rules.PlayerPos | src/index.js:256 | The player position used by a move is the only cell that shows the player. |
| Rules.Step | src/index.js:251-286 | The step is well-formed and keeps the goal list. A counted move adds exactly one to the counter. A refusal or a hand-back leaves the game unchanged. |
| Rules.StepOutcome | src/index.js:252-262 | A move is refused exactly when the game is won, the target is off the grid or a wall, or the target is a box whose further cell is off the grid or a wall. The level is handed back exactly when a box is pushed against a box. Every other move is performed. |
| Rules.EdgeChecksMatchSource | src/index.js:257-261 | The per-direction edge tests on the player and on the target mean exactly that the next cell is off the grid. |
| Rules.EdgeRefused | src/index.js:257 | A player on the edge it moves towards is refused, and nothing changes. |
| Rules.WalkEffect | src/index.js:279-285 | A step onto a free cell puts the player there and the old last tile back. The target's tile becomes the new last tile. Every other cell and field is kept, and one move is counted. |
| Rules.PushEffect | src/index.js:264-278 | A push moves the box id one cell on. The cell it lands on shows BoxOnGoal exactly when it was a Goal, and that tile becomes the box's last tile. The box's old last tile passes to the player. Every other cell and box is kept, one move is counted and the win is re-checked. |
| Rules.PushAt | src/index.js:264-277 | The push of the box at t1 to t2 by the player at p has the effect described under `PushedAt`. |
| Rules.MovePlayerAt | src/index.js:272-275 | Moving the player from p to t writes the three cells and last tiles as described under `SteppedAt`. |
| Rules.WalkKeepsWellFormed | src/index.js:279-285 | A walk keeps exactly one player, the box map agreeing with the level, and ground last tiles. |
| Rules.PushKeepsWellFormed | src/index.js:264-278 | A push keeps exactly one player, distinct box ids on box cells, and ground last tiles. |
| Rules.StepKeepsTerrain | src/index.js:251-286 | A move keeps the level's shape and every cell's terrain, meaning the goal or floor under players and boxes. It keeps the player's and boxes' last tiles consistent with the terrain. |
| Rules.StepKeepsWonMeansSolved | src/index.js:277 | The won flag stays on only when every box is on a goal, because the win is re-checked after each push. |
| Rules.StepKeepsInvariant | src/index.js:251-286 | Every move preserves the game invariant: well-formed, terrain-consistent, goal list equal to the goal terrain, and won only when solved. |
| Rules.WonIffNoBareBox | src/index.js:163 | Under the invariant, the game is won exactly when no cell shows a plain Box. |
| Rules.BlockedPushReadsAsSuccess | src/index.js:262 | As written, pushing a box against a second box returns a truthy value although the game is unchanged. |
| Rules.Reply | src/index.js:246 | The documented boolean reply is true only when the source's reply is truthy. |
| Rules.ReplyIffStateChanged | src/index.js:246 | The documented reply is true exactly when the move changed the game. |
| Lifecycle.InitialWellFormed | src/index.js:188-209 | A generated level with ground box last tiles gives a well-formed initial game, and it is not already won. |
| Lifecycle.InitialInvariant | src/index.js:188-209 | The constructor's game satisfies the full game invariant. |
| Lifecycle.OriginalIsGenerated | src/index.js:197 | The retained original level is still a generated level. |
| Lifecycle.ResetAsWrittenSpec | src/index.js:219-238 | `reset` as written rebuilds a freshly constructed game over the original level. The one difference is that it keeps the box last tiles that play left. |
| Lifecycle.ResetKeepsStaleGoal | src/index.js:222 | If play left a box on a goal, `reset` as written shows a plain Box with a remembered Goal. Its cell's goal terrain is then missing from the goal list. |
| Lifecycle.ResetIntendedRestoresInitial | src/index.js:219-238 | `reset` with the last tiles cleared equals a freshly constructed game and satisfies the invariant. |
| Lifecycle.ResetIdempotent | src/index.js:219-238 | Resetting twice is the same as resetting once, both as written and as intended. |
| Lifecycle.StepKeepsResetData | src/index.js:251-286 | A move keeps the dimensions, the original level and the set of box ids with last tiles. |
| Lifecycle.ResetIntendedForgetsStep | src/index.js:219-238 | Resetting (as intended) after a move gives the same game as resetting before it. |
| Play.Run | src/index.js:276 | After any sequence of moves the game is well-formed. The counter rises by exactly the number of `true` replies. |
| Play.RunKeepsInvariant | src/index.js:251-286 | The game invariant holds after any sequence of moves. |
| Play.WonIsFinal | src/index.js:252-255 | Once the game is won, every later move is refused and changes nothing. |
| Play.ResetIntendedForgetsRun | src/index.js:219-238 | Resetting (as intended) after any play restores the same game. |
| Engine.Sokoban.constructor | src/index.js:113-209 | The fields hold the initial game for the generated level, which satisfies the invariant. |
| Engine.Sokoban.Reset | src/index.js:219-238 | The fields become `reset` as written: `boxesLastTiles` is unchanged and the misspelled field is cleared. Well-formedness is kept. |
| Engine.Sokoban.Move | src/index.js:251-286 | The fields and reply equal `Step` on the old fields, and the misspelled `boxesLastTile` is left as it was. Well-formedness and the invariant are kept. |
| Engine.Sokoban.PushFields | src/index.js:264-277 | The in-place writes of a push produce `Push` of the old state, and leave `boxesLastTile` as it was. |
| Engine.Sokoban.MoveBoxFields | src/index.js:264-270 | The in-place writes that move a box produce `MoveBox` of the old state, and leave `boxesLastTile` as it was. |
| Engine.Sokoban.MovePlayerFields | src/index.js:272-275 | The in-place writes that move the player produce `MovePlayer` of the old state, and leave `boxesLastTile` as it was. |
| Engine.Sokoban.MoveUp | src/index.js:251-286 | `moveUp` is `Move(Up)`: the fields and reply equal `Step` in that direction, and `boxesLastTile` is left as it was. |
| Engine.Sokoban.MoveDown | src/index.js:298-333 | `moveDown` is `Move(Down)`: the fields and reply equal `Step` in that direction, and `boxesLastTile` is left as it was. |
| Engine.Sokoban.MoveLeft | src/index.js:345-380 | `moveLeft` is `Move(Left)`: the fields and reply equal `Step` in that direction, and `boxesLastTile` is left as it was. |
| Engine.Sokoban.MoveRight | src/index.js:392-427 | `moveRight` is `Move(Right)`: the fields and reply equal `Step` in that direction, and `boxesLastTile` is left as it was. |
| Scenarios.GoalAboveStart | src/index.js:188-209 | The constructor's game over a 5x5 level holds the player, one box and one goal, in a column. |
| Scenarios.PushUpOntoGoal | src/index.js:264-278 | Pushing the lone box up onto the lone goal shows BoxOnGoal and wins in one move. A further move up is refused. |
| Scenarios.LeftEdgeStart | src/index.js:188-209 | The constructor's game over a level with the player in column 0 has the player on the left edge. |
| Scenarios.LeftEdgeScenario | src/index.js:345-354 | From that game, a move left is refused, and nothing changes. |

## Left out

- Console messages are not modelled. On a failed check the source logs a message and leaves a half-built object. The model gives the failure reason from `Config.ValidateOptions` instead, and the class constructor starts from options that passed the checks.
- The `isNaN`, integer and `typeof` checks are not modelled. Dimensions and box counts are integers and glyphs are strings in the model, so those checks cannot fail. The next line says what the integer box count drops.
- The box count is an integer in the model. The source has no integer check on `options.boxes` (src/index.js:86-88 test only NaN and the range), so a fractional count such as 1.5 passes the constructor. The generator then never matches the count and retries forever (src/util/generate.js:41). The model does not capture that input.
- Glyph defaulting is not modelled. Tiles are kinds, and `Config.GlyphsIdentifyTiles` shows that this is faithful once the glyphs are distinct.
- The level generator is not modelled. src/util/generate.js is not part of this model: its random level and its retry loop become the `GeneratedLevel` and `FreshLastTiles` preconditions on what it hands over.
- The source of `checkWin` is not part of this model. `Rules.CheckWin` follows its documented meaning: every box is on a goal.
- The JSON deep copies are not modelled. The level is a value (`seq<seq<Tile>>`) that each write reassigns. Aliasing between `level` and `originalLevel` therefore cannot arise, and the copies need no model.
- String keys `"x,y"` for the box map are modelled as `Pos` values.
- The four direction methods share one `Move`. Each of `MoveUp`, `MoveDown`, `MoveLeft` and `MoveRight` states that it is `Move` in its direction.
- The source's `options` field and the other `this.options` reads are not modelled. They are the tile appearances, and the model replaces them with tile kinds.

## Findings

| source | as written | input that shows it | evidently intended | confidence | as-written member | corrected member |
|---|---|---|---|---|---|---|
| src/index.js:222 | `reset` clears a misspelled field `boxesLastTile`, so `boxesLastTiles` keeps the tiles that play left | push a box onto a goal, then `reset`: that box's remembered tile is still Goal, and pushing it off shows a goal that is not in the goal list | what the doc comment of `reset` promises (src/index.js:213): the game as it was generated, so every box's remembered tile is Floor again. This is `ResetIntended`, which puts Floor under every recorded box id. Only fixing the spelling would set `boxesLastTiles` to an empty map, and the next push would then write `undefined` into the level (src/index.js:268) | high (not executed) | Lifecycle.ResetKeepsStaleGoal | Lifecycle.ResetIntendedRestoresInitial |
| src/index.js:262 | a push against a second box returns the level array, which is truthy | player, box, box in a row, away from walls and edges: the move changes nothing but the reply reads as success | return `false`, as the documented reply "whether it was possible to move the player" says | high (not executed) | Rules.BlockedPushReadsAsSuccess | Rules.ReplyIffStateChanged |
