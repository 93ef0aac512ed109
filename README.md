# Zombie plant: a Dafny model of the frame simulation

The game is a small "plants vs zombies" arcade prototype built on the Bevy
entity/component/system engine. Under the engine glue sits a discrete
simulation. This project models it in Dafny and proves its properties:

- **Board** (`board.dfy`): the 14 x 9 tile grid over columns -7..7 and rows
  -5..4 (half-open) with a pitch of 50 world units. `LayTiles` is the startup
  loop that spawns one tile per cell and flips a running colour after every
  cell. `PlaceMarkers` is the loop that puts one zone marker at the right end
  of every row.
- **Controls** (`controls.dfy`): the player controller. Every just-pressed W,
  A, S or D moves the single player one pitch. Both axes are then clamped to
  the field's world bounds, x to [-350, 300] and y to [-250, 150].
- **Zombies** (`zombies.dfy`): the zombie update. Every zombie moves left by
  its own speed. A zombie whose new x is at or below the left edge (-350) is
  queued for despawn, and the queue is flushed after the pass.
- **Spawner** (`spawner.dfy`): the spawn countdown on the player entity.
  While the countdown is above zero it loses the frame's elapsed time.
  Otherwise it draws a row and an interval in [0.2, 3.0). It then spawns one
  zombie at x = 300 on that row, with the interval as the zombie's speed, and
  restarts at the interval.
- **Game** (`game.dfy`): class `World` holds the entity store, split by kind:
  tiles, markers, players and zombies. `Setup` is the startup system.
  `MovePlayer`, `UpdateZombies` and `AddZombies` are the three per-frame
  systems. Each one keeps the invariant `Valid()` and states its new state in
  terms of the specification functions above.

Players are at whole-number world positions, which are exact in `f32` at
these magnitudes. Zombie x, speeds, timers and the frame time `dt` are
`real`. The two random draws of an expiry (`Roll`) and `dt` are parameters
of `AddZombies`. Their preconditions are the ranges the random source draws
from and the non-negativity of the engine's frame time.

Two consequences of the spawn test `time > 0.0`:
- The countdown can go below zero: a countdown above zero loses the whole
  `dt` (`Spawner.Tick`), and the next frame then spawns. The model bounds the
  countdown only from above, by its starting value 3.0.
- A 5.0 countdown with frames of 1.0 is 0 after five frames and spawns on the
  sixth, the first frame that starts at or below zero
  (`Spawner.FiveSecondScenario`).

## Model

| member | source | states |
|---|---|---|
| Board.Toggle | src/main.rs:78-81 | flipping the running colour always changes it |
| Board.ToggleInvolutive | src/main.rs:78-81 | flipping twice gives back the original colour |
| Board.Color | src/main.rs:34-39 | both tiles are drawn grey; White at full intensity, Gray at half |
| Board.ColorInjective | src/main.rs:34-39 | the two tiles have different colours |
| Board.LayTiles | src/main.rs:64-83 | the nested row/column loop spawns exactly 126 tiles; the i-th sits at cell (-7 + i mod 14, -5 + i div 14) times 50, with the colour its column gives |
| Board.LaidOutCell | src/main.rs:66-76 | every cell (x, y) of the grid gets a tile at (x*50, y*50), White exactly when x + 7 is even |
| Board.LaidOutCellsDistinct | src/main.rs:66-76 | every tile lies on a grid cell and no two tiles share a cell |
| Board.LaidOutAlternates | src/main.rs:64-83 | consecutive tiles in spawn order have opposite colours, across row ends too; the first is White |
| Board.PlaceMarkers | src/main.rs:86-95 | the marker loop spawns one marker per row, at (300, y*50) |
| Board.MarkedOnePerRow | src/main.rs:86-95 | every marker is in the last column on a grid row, and no two markers share a row |
| Controls.Clamp | src/main.rs:191-198 | the result lies in [lo, hi]: the value itself inside the range, the nearer bound outside it |
| Controls.Axis | src/main.rs:178-189 | the net step of a +/- key pair is +1, -1 or 0, and it is 0 exactly when both or neither are pressed |
| Controls.Moved | src/main.rs:178-198 | after a frame the player is inside [-350, 300] x [-250, 150]; an in-range move is exactly one pitch per axis (D +x, A -x, W +y, S -y); an out-of-range move stops at the bound; grid points stay grid points; no keys leave an in-bounds player unchanged; the countdown is untouched |
| Controls.PlayerSystem | src/main.rs:173-177 | the controller acts only when exactly one player exists; with zero or several it changes nothing |
| Controls.OppositeKeysCancel | src/main.rs:178-189 | pressing A and D together, or W and S together, is the same as pressing neither |
| Controls.MovedIdempotentWithoutKeys | src/main.rs:191-198 | clamping is idempotent: a second keyless frame changes nothing |
| Controls.WalkStaysOnGrid | src/main.rs:173-200 | from any in-bounds grid point, after any sequence of frames the player is at (ix*50, iy*50) with ix in -7..6 and iy in -5..3 |
| Controls.StartOnGrid | src/main.rs:104-108 | the start position (-350, -250) is an in-bounds grid point, and so is every position reached from it |
| Zombies.Advance | src/main.rs:128-129 | every zombie's x decreases by its own speed, strictly when the speed is positive; y and speed are unchanged; no zombie is added or lost |
| Zombies.Survivors | src/main.rs:130-132 | a zombie is kept, with all its copies, exactly when it is right of the left edge; kept zombies are all right of the edge; nothing is removed when all are |
| Zombies.Despawn | src/main.rs:131 | flushing the queue keeps every zombie whose index is not queued, every kept zombie is one at an unqueued index, and the store never grows |
| Zombies.Update | src/main.rs:127-134 | after the update every zombie is right of the left edge; an old zombie's stepped form is kept exactly when it is right of the edge; the store never grows |
| Zombies.DespawnDoomed | src/main.rs:127-133 | queuing exactly the indices at or past the edge and flushing afterwards keeps exactly the survivors, in order |
| Zombies.UpdateRemovesExactlyCrossed | src/main.rs:127-133 | a zombie is gone after the update exactly when its new x is at or below -350 |
| Zombies.UpdateOnlyMoves | src/main.rs:127-133 | every zombie after the update is an old zombie moved by its own speed |
| Zombies.CrossingScenario | src/main.rs:129-131 | a zombie 1 unit right of the edge with speed 3 is removed on the next frame |
| Spawner.Tick | src/main.rs:147-168 | a zombie spawns exactly when the countdown starts the frame at or below zero; a running countdown loses dt; an expired countdown restarts at the drawn interval, and the zombie is at (300, row*50) with that interval as its speed; with in-range draws the restart is above zero |
| Spawner.TickAll | src/main.rs:146-171 | every countdown entity is ticked, and the number of zombies spawned in the frame equals the number of countdowns that started it at or below zero |
| Spawner.TickAllPrefix | src/main.rs:147-168 | ticking one more entity extends the shorter result: a running countdown loses dt and adds no zombie, an expired one restarts at its drawn interval and adds exactly one, so each spawner spawns at most once per frame |
| Spawner.TickAllTimers | src/main.rs:147-154 | each entity keeps its position and gets the countdown Tick gives it with its own draws |
| Spawner.TickAllSpawnsFresh | src/main.rs:152-167 | with in-range draws every spawned zombie is at x = 300 on a grid row, with speed in [0.2, 3.0) |
| Spawner.SingleSpawner | src/main.rs:146-171 | with the game's single spawner: no zombie and countdown - dt when the countdown started above zero, otherwise exactly one zombie whose speed equals the new countdown |
| Spawner.NoSpawnTwiceInARow | src/main.rs:148-154 | the frame after a spawn never spawns, since the restart is at least 0.2 |
| Spawner.CountdownRunning | src/main.rs:148-149 | while the countdown starts every frame above zero, it loses exactly dt per frame and nothing spawns |
| Spawner.CountdownExpires | src/main.rs:148-167 | the first frame that starts at or below zero spawns exactly one zombie and restarts at the drawn interval |
| Spawner.FiveSecondScenario | src/main.rs:147-154 | a 5.0 countdown with frames of 1.0 is at 0 after five frames with no spawn, and spawns once on the sixth |
| Game.ZombiePass | src/main.rs:128-133 | the in-place movement pass leaves every zombie advanced by its speed and queues exactly the indices at or past the left edge |
| Game.SpawnPass | src/main.rs:147-168 | the in-place countdown pass gives every entity its ticked countdown and queues the spawned zombies in entity order |
| Game.UpdateKeepsZombiesOk | src/main.rs:127-133 | after the update every zombie is still on a grid row, strictly right of -350, at or left of 300, with a speed in [0.2, 3.0) |
| Game.TickAllKeepsPlayersOk | src/main.rs:146-171 | the spawn system keeps every player on an in-bounds grid point with its countdown at or below 3.0 |
| Game.World.Setup | src/main.rs:61-110 | startup lays the 126 tiles and 9 markers, and spawns one player at (-350, -250) with countdown 3.0; there are no zombies |
| Game.World.MovePlayer | src/main.rs:173-200 | the key-by-key updates and the clamps give exactly PlayerSystem; nothing else changes |
| Game.World.UpdateZombies | src/main.rs:127-134 | the zombie store becomes the survivors of the advanced zombies; tiles, markers and players are untouched |
| Game.World.AddZombies | src/main.rs:146-171 | the countdowns become TickAll's, and the spawned zombies are appended to the store after the pass; tiles and markers are untouched |

## Left out

- Application bootstrapping: the window, the plugins and the registration of the three systems (src/main.rs:5-20). This is engine plumbing.
- The engine's scheduling of `player`, `update` and `add` within a frame. Each system is a separate method. Spawns and despawns queued in a system take effect at the end of that system's pass.
- The camera, sprite sizes, the marker's translucent green, the player's red, the zombies' green, the z layer of each transform, and the static "Money: 0.0" text (src/main.rs:62, 68-76, 87-94, 97-124, 156-168). All of these are rendering.
- The random number generator (src/main.rs:151-154). Each draw is a parameter constrained to its range.
- IEEE `f32` rounding. Timers, speeds and zombie x are exact reals. Player and tile coordinates are exact integers.
- The declarations `Zon`, `Plant`, `MoneyUI` and `Direction`, and the `Instant`/`Duration` imports (src/main.rs:3, 48-59, 141-144). No logic uses them.
- Plants, bullets, collision and a score: the program declares `Plant` and shows a static money text but has no plant, bullet, collision or score logic, so none is modelled.
- `Board.Color` models the tile colour mapping (src/main.rs:34-39) on its own; the tile layout stores the `Tile` value and does not use the colour.
- In-place component updates: the two passes (`ZombiePass`, `SpawnPass`) iterate over a copy of the component column, which the caller writes back. The engine mutates the components in place. With no aliasing, the outcome is the same.
