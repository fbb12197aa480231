# SpaceBattle game engine, modelled in Dafny

SpaceBattle is a small browser shooter (a Telegram mini-app). The ship sits
on row 500 of an 800-unit-wide field and moves left and right. It fires
bullets upwards. Enemies fall from the top, and every enemy that gets past
the bottom of the canvas costs a life. This project models the game logic
in `game.js`:

- the `Player` class (constructor, `move`, `shoot`);
- the `Enemy` class (constructor, `move`);
- the state-changing part of `Game`: `update`, `checkCollisions`,
  `isColliding`, `restartGame` and the state part of `gameOver`;
- the three callbacks that change state: the space key, the touch
  auto-fire timer and the enemy-spawn timer.

The project has two layers.

- **Values** (modules `Geometry`, `Entities`, `Passes`, `Session`). Every
  rule of one tick is a function on datatypes:
  - `IsColliding` is the collision test (game.js:249-254).
  - `MoveX` is one move of the ship (game.js:24-32), `Fired` the bullet
    that `shoot` pushes (game.js:34-42), `Advance` one bullet step
    (game.js:216), `Spawned` a new enemy (game.js:46-53) and `Fall` one
    enemy step (game.js:60-62).
  - `BulletPass` (game.js:215-220), `EnemyPass` (game.js:223-232),
    `HitPass` (game.js:239-245), `CollisionPass` and `Collisions`
    (game.js:237-247) are the three list walks of one tick.
    `BulletCursorAfter` and `EnemyCursorAfter` are the first walks taken
    callback by callback.
  - `Session.Tick` is a whole call of `update` (game.js:208-235).
    `Session.Shoot` is the space key (game.js:188-193), `Session.AutoFire`
    the auto-fire callback (game.js:141-146), `Session.Spawn` the spawn
    timer's callback (game.js:201-203) and `Session.Initial` the state that
    the constructors and `restartGame` set up (game.js:4-12, 72-78,
    175-185).
  
  The lemmas about these functions hold the properties.
- **Objects** (module `SpaceBattle`). `Player`, `Enemy` and `Game` are
  classes whose methods update their fields in place, as the JavaScript
  does. Each method is proved against the value layer. For example,
  `Game.Update` ensures that the game's snapshot afterwards is
  `Tick(old snapshot, …)`. It also ensures that the ship is the same
  object and that every enemy object on the list was on it before, so a
  caller can go on calling methods on them (`TwoFrames`). The `forEach` callbacks are methods of their own
  (`VisitBullet`, `VisitEnemy`, `TestHit`, `TestBullet`). The bullet and
  enemy loops are proved with a ghost cursor that walks the closed form of
  the pass. The two collision loops carry an invariant relating the current
  state to what is left of the recursive collision pass (`HitsLeft`,
  `CollisionsLeft`).

The game walks its lists with `forEach` and removes from the same list with
`splice(i, 1)` while walking it. The model keeps these semantics exactly:

- the number of steps is fixed when the walk starts;
- the index always advances;
- a step whose index is past the current end does nothing.

So when a bullet or enemy is removed, the next one shifts into its slot and
is not visited in that tick. In `checkCollisions`, a bullet that hits a
second enemy splices out whatever bullet now sits at its old index.

The environment is passed in as parameters:

- `Math.random()` becomes a `random` value in [0, 1);
- `canvas.height` becomes `canvasHeight`;
- the `keys` map becomes two booleans, one for the left arrow and one for
  the right arrow.

Coordinates are `real`.

Notes on the code's behaviour:

- A move that would leave the field is rejected, not clamped to the edge.
  From x = 3, "left" leaves the ship at 3 (`MoveNearEdgeIsRejected`).
- Lives are checked only when an enemy escapes, and they are not floored.
  Several escapes in one tick can take lives below 0 (`LivesGoBelowZero`).
- Every enemy has the same size and speed, is worth 100 points and dies
  from one hit. Shots have no cooldown.
- A bullet can destroy several enemies in one tick
  (`SecondHitRemovesNextBullet`).

## Model

| member | source | states |
|---|---|---|
| Geometry.CollisionIsSymmetric | game.js:249-254 | `isColliding(a, b)` and `isColliding(b, a)` always agree |
| Geometry.TouchingEdgesDoNotCollide | game.js:249-254 | rectangles that only share an edge (on either axis) do not collide: the test is strict |
| Geometry.CollidingIffCommonPoint | game.js:249-254 | for rectangles of positive size, colliding holds exactly when the two open rectangles share a point (both directions) |
| Entities.MoveStaysInField | game.js:24-32 | from a position in [0, 750], a move stays in [0, 750]; it shifts by exactly ±5 exactly when the target is in bounds, and otherwise leaves x unchanged (no clamping) |
| Entities.HeldLeft | game.js:24-32 | holding left for n ticks moves the ship exactly 5n units left while that stays in the field |
| Entities.TenTicksLeftFromStart | game.js:24-32 | from the start x = 375, ten left moves end at x = 325 |
| Entities.MoveNearEdgeIsRejected | game.js:24-32 | a left move from x = 3 is refused: x stays 3, not 0 |
| Entities.Spawned | game.js:46-53 | a new enemy lies fully inside the field horizontally (0 ≤ x < 760) with its bottom edge on the top edge (y = -40) |
| Entities.FallStepScales | game.js:60-62 | the fall step is never negative, grows with the canvas height and is exactly 2 on a 600-high canvas |
| Entities.FallIsDownward | game.js:60-62 | a fall keeps the enemy's column and never moves it up |
| Passes.RemoveAtContents | game.js:218 | `splice(i, 1)` removes exactly the element at i (as a multiset), shortens the list by one exactly when i is in range, and adds nothing |
| Passes.BulletPassLength | game.js:215-220 | the bullet walk never adds bullets, and removes at most one bullet in every two, because the bullet after a removed one is skipped |
| Passes.BulletPassAllStay | game.js:215-220 | when no bullet leaves the top, every bullet is advanced by its speed and kept, in order |
| Passes.BulletPassSurvivors | game.js:215-220 | every bullet left after the walk is either an advanced bullet still at y ≥ 0, or one of the input bullets, unchanged |
| Passes.BulletCursorAfterOnTheWay | game.js:215-220 | every cursor reached by the bullet walk, callback by callback, is on the way to `BulletPass`: what is kept so far followed by the pass of the rest is the whole result |
| Passes.BulletCursorAfterSlot | game.js:215-220 | while the bullet walk is inside the list, the slot it stands on in the current list is the index the next callback is given |
| Passes.ExitedBulletIsReplacedBySkipped | game.js:216-218 | when the callback given index k finds a bullet that leaves the top, slot k of the result holds the next input bullet, unmoved, so the exited bullet is not kept there, and the walk resumes two input indices on |
| Passes.BulletPassKeepsOnField | game.js:215-220 | if no bullet is above the top edge before the walk, none is after it |
| Passes.SkippedAfterRemoval | game.js:215-220 | with two bullets both about to leave, the first is removed and the second shifts into its slot, is not moved and stays |
| Passes.EnemyPassCount | game.js:223-232 | every enemy is either kept or counted as escaped, and at most one in every two escapes in one walk |
| Passes.EnemyPassAllStay | game.js:223-232 | when no enemy crosses the bottom, every enemy falls one step, all are kept in order and no life is lost |
| Passes.EnemyCursorAfterOnTheWay | game.js:223-232 | every cursor reached by the enemy walk, callback by callback, is on the way to `EnemyPass`, kept enemies and escapes alike |
| Passes.EnemyCursorAfterSlot | game.js:223-232 | while the enemy walk is inside the list, the slot it stands on in the current list is the index the next callback is given |
| Passes.EscapedEnemyIsReplacedBySkipped | game.js:224-227 | when the callback given index k finds an enemy that escapes, it counts one escape, and slot k of the result holds the next input enemy, which has not fallen; the walk resumes two input indices on |
| Passes.HitPassAccounting | game.js:239-245 | the inner loop removes exactly one enemy per hit, only enemies that overlap its bullet, at most one bullet per hit, and changes no element it keeps |
| Passes.CollisionPassAccounting | game.js:238-246 | the outer loop removes exactly one enemy per hit, each overlapping some bullet of the list it started from, and at most one bullet per hit |
| Passes.CollisionsAccounting | game.js:237-247 | `checkCollisions` removes exactly as many enemies as it scores hits, at most that many bullets, and only enemies some bullet overlapped |
| Passes.HitPassNoHit | game.js:239-245 | the inner loop scores nothing exactly when its bullet overlaps none of the enemies it visits, and then it changes nothing |
| Passes.CollisionPassNoHit | game.js:238-246 | the outer loop scores nothing exactly when no visited bullet overlaps any enemy, and then it changes nothing |
| Passes.CollisionsNoHit | game.js:237-247 | `checkCollisions` scores nothing exactly when no bullet overlaps any enemy, and then both lists are unchanged |
| Passes.SecondHitRemovesNextBullet | game.js:237-247 | a bullet overlapping two enemies destroys both for 200 points, and its second hit splices out a different bullet that hit nothing |
| Session.InitialConsistent | game.js:72-78 | the start session (ship at (375, 500), no bullets or enemies, score 0, 3 lives, not over) satisfies the session invariant |
| Session.TickFrozenAfterGameOver | game.js:208-209 | once the game is over, `update` changes nothing |
| Session.SteerPhasePreservesConsistent | game.js:211-212 | the arrow keys keep the ship in the field on its row |
| Session.BulletPhasePreservesConsistent | game.js:215-220 | the bullet walk keeps the session invariant (no bullet above the top edge) |
| Session.EnemyPhasePreservesConsistent | game.js:223-232 | the enemy walk keeps the session invariant (lives at most 3, the game over exactly when lives are at or below 0), and lives never rise |
| Session.CollisionPhasePreservesConsistent | game.js:237-247 | `checkCollisions` keeps the session invariant (the score stays a non-negative multiple of 100, no bullet is above the top edge), and the bullets and enemies left are sub-multisets of those before |
| Session.TickPreservesConsistent | game.js:208-235 | a whole `update` keeps the session invariant |
| Session.ShootPreservesConsistent | game.js:188-193 | a shot, from the space key or from auto-fire, keeps the session invariant |
| Session.SpawnPreservesConsistent | game.js:201-203 | spawning an enemy keeps the session invariant |
| Session.TickLives | game.js:223-232 | in a running tick, lives drop by exactly the number of escaped enemies, are not floored at 0, and the game ends exactly when this tick took lives to 0 or below |
| Session.TickAccounting | game.js:208-247 | a tick never lowers the score, raises it in whole multiples of 100, and every enemy that leaves the list either cost a life or scored a hit |
| Session.LivesGoBelowZero | game.js:223-232 | with 1 life and two escaping enemies separated by one that is skipped, lives end at -1 and the game is over |
| SpaceBattle.Player.constructor | game.js:4-12 | the ship starts at (375, 500) with no bullets |
| SpaceBattle.Player.Move | game.js:24-32 | the new x is `MoveX(old x, direction)`: one step of 5, refused (not clamped) if it would leave [0, 750] |
| SpaceBattle.Player.Shoot | game.js:34-42 | exactly one bullet (x + 25, y, 5, 10, 7) is appended; the earlier bullets are unchanged |
| SpaceBattle.Enemy.constructor | game.js:46-53 | the enemy is `Spawned(random)`: x = random · 760, y = -40 |
| SpaceBattle.Enemy.Move | game.js:60-62 | the enemy falls by 2 · canvasHeight / 600; its x is unchanged |
| SpaceBattle.Game.constructor | game.js:72-78 | the new game's snapshot is the start session |
| SpaceBattle.Game.Restart | game.js:175-182 | after `restartGame` the snapshot is the start session again, with a fresh ship |
| SpaceBattle.Game.GameOver | game.js:256-257 | `gameOver` sets the game-over flag and changes nothing else in the session |
| SpaceBattle.Game.SpawnEnemy | game.js:201-203 | the spawn timer appends exactly one fresh enemy, `Spawned(random)`, and keeps the earlier ones |
| SpaceBattle.Game.Shoot | game.js:188-193 | the space key shoots, even after game over |
| SpaceBattle.Game.AutoFire | game.js:141-146 | the auto-fire timer shoots only while the game is not over |
| SpaceBattle.Game.Update | game.js:208-235 | the snapshot after `update` is `Tick` of the snapshot before it; the ship object is the same one, and every enemy object on the list was on it before |
| SpaceBattle.Game.SteerShip | game.js:211-212 | left is applied before right, and only the ship's x changes |
| SpaceBattle.Game.VisitBullet | game.js:216-219 | one bullet callback: the bullet at i rises by its speed, and is spliced out if it is then above the top edge |
| SpaceBattle.Game.MoveBullets | game.js:215-220 | the in-place `forEach` with `splice` leaves exactly `BulletPass` of the old bullet list |
| SpaceBattle.Game.VisitEnemy | game.js:224-231 | one enemy callback: the enemy at i falls; if it is then below the canvas it is spliced out, lives drop by 1, and the game ends if lives are at or below 0 |
| SpaceBattle.Game.MoveEnemies | game.js:223-232 | the in-place `forEach` with `splice` leaves exactly `EnemyPass` of the old enemies, and lives lowered by the number that escaped; every enemy object left was on the list before |
| SpaceBattle.Game.TestHit | game.js:240-244 | one inner callback (`HitTested`): on an overlap, index i of the bullets and index j of the enemies are spliced out and the score rises by 100; no enemy object is added |
| SpaceBattle.Game.TestBullet | game.js:239-245 | one outer callback tests the bullet taken at i against every enemy index that existed when it started (`HitPass`) |
| SpaceBattle.Game.CheckCollisions | game.js:237-247 | the nested in-place walks leave exactly the lists and score of `Collisions` |
| SpaceBattle.TwoFrames | game.js:141-235 | two `update` frames with an auto-fire shot and a spawn between them chain through the same objects and leave `Tick(Spawn(AutoFire(Tick(Initial, …))), …)`, with the ship at x = 365 |

## Left out

- Drawing (`draw` of each class and of `Game`), colours and the Telegram
  theme (`updateColors`) are left out. They only render the state.
- The Telegram bridge (`tg.ready`, the main button, `sendData` in
  `gameOver`) and the DOM game-over banner are left out. They are calls
  into code outside the game. `Game.GameOver` models only the flag.
- Key, touch and resize listeners are left out (`setupControls`,
  `setupTouchControls`, `resizeCanvas`). A touch only sets the two arrow
  keys, which `Update` takes as booleans. The space key and the auto-fire
  callback are modelled as `Game.Shoot` and `Game.AutoFire`.
- Whether auto-fire is registered at all (only on touch devices) is not
  modelled.
- `resizeCanvas` also rewrites `player.x` as `(x * scaleX) / scaleX`
  (game.js:103-105). In exact arithmetic this leaves x unchanged, so it is
  not modelled. Floating-point rounding there is not captured, nor the NaN
  that a window width of 0 would produce.
- Timers and the animation loop (`startGame`'s `setInterval`, `gameLoop`,
  `requestAnimationFrame`) are left out. Each callback they run is a method
  the environment calls. The spawn interval of 2000 ms and the auto-fire
  period of 500 ms are not modelled.
- IEEE floating point is modelled as exact `real` arithmetic, so rounding
  in `2 * h / 600` and in `random * 760` is not captured.
- Bullets are object literals that the game changes in place
  (`bullet.y -= bullet.speed`). They are modelled as datatype values in a
  sequence, and the update is a sequence update. Nothing else holds a
  reference to a bullet, so no sharing is lost.
- The `canvas` back-reference held by `Player` and `Enemy` is replaced by
  the `canvasHeight` parameter of `Enemy.Move` and `Game.Update`.
- `Game.Valid` is an added ghost invariant: no enemy object appears twice
  in the list. `SpawnEnemy` (fresh enemies) and `Restart` establish it.
- `bot.py`, `vite.config.js` and the `src/` directory are not part of this
  model.
