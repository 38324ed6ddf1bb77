# Flight simulator game rules, in Dafny

The browser flight simulator (`src/main.ts`, class `FlightSimulator`) flies an
airplane over terrain with trees, mountains, buildings, lakes, clouds and five
flying cats. The player shoots red bullets with the left mouse button and
engages the afterburner with the right one. Each shot costs a point, never
going below zero, and the score decays by one point per second while it is
positive. The game is lost when the airplane flies below altitude 10 or its
box meets an obstacle. A restart button resets the round.

The pairwise collision test awards twelve points whenever it is given a
bullet and a cat, without testing their boxes, and the game is won at 120
points. As the code stands, neither can happen.
The test is only called from the bullet scan, and that scan only tests
single meshes (src/main.ts:778-782). Cats are groups (src/main.ts:381), so
the cat branch is never reached. The score starts at 0 and nothing else
raises it, so it stays at 0 and the win never fires. `Rules.NeverWon` states
this for any sequence of events.

This project models the rules that drive that game, not the graphics:

- `entities.dfy` (module `Entities`) holds the rule constants and the values
  the rules work on: scene objects tagged with their kind, bullets,
  explosions.
- `collision.dfy` (module `Collision`) is the pairwise collision test
  `checkCollision` as a pure decision function. `Dispatch` returns the
  branch that decided, so the cat bonus can be told from a plain overlap.
- `lifetimes.dfy` (module `Lifetimes`) holds the two per-frame list passes.
  Explosions age out. Bullets advance, are tested against the scene, and are
  removed when they hit something, reach the ground or are too old. Both
  passes walk the list from the last index down and remove in place.
  `Run` states the result of such a walk. The lemmas say which bullets
  survive and in what order.
- `rules.dfy` (module `Rules`) gives each game operation as a function on a
  `GameState` value, and proves what holds over any run of input events.
- `simulator.dfy` (module `Simulator`) is the class `FlightSimulator`. Its
  fields are updated in place by methods with the source's loops. Each
  method is proved to leave exactly the state the `Rules` function of the
  same name computes.

Geometry is reduced to what the rules read:

- An object's position.
- An abstract box test `intersects: (Box, Box) -> bool`. A `Box` is an
  object together with the margin its box is grown by.
- The airplane's heading, which is passed in where a shot needs it.

Some facts of the code that the model keeps:

- Lakes are ordinary meshes, so the airplane crashes into them and bullets
  hit them.
- A restart clears bullets, explosions, score and flight state. It keeps
  `lastShotTime`, `lastScoreUpdate` and the pointer lock.
- Each shot costs exactly one point, and the score never goes below zero.
- A bullet is tested against other bullets too, since they are meshes in
  the scene.

## Model

| member | source | states |
|---|---|---|
| Entities.Penalized | src/main.ts:536 | `Math.max(0, score - 1)`: never negative, and exactly one point less whenever there is a point to lose |
| Collision.Dispatch | src/main.ts:709-763 | A bullet never collides with the airplane that fired it, in either argument order. Clouds, explosions and the afterburner never collide. The cat branch is taken exactly for a bullet and a cat, always hits and is the only branch that scores (12). The airplane's box is grown by the 2-unit margin. Every other pair collides exactly when the plain boxes meet |
| Collision.DispatchSymmetric | src/main.ts:709-763 | With a symmetric box test, swapping the two objects changes neither the verdict nor the points, except for two airplanes |
| Collision.BulletAgainstMeshNeverScores | src/main.ts:775-786 | A bullet tested against a single mesh, as the bullet scan does, never scores. It collides exactly when the mesh is not inert and the plain boxes meet |
| Lifetimes.Live | src/main.ts:600-615 | An explosion is kept exactly when it is at most 1000 ms old, and ageing never adds entries |
| Lifetimes.AgeInPlace | src/main.ts:602-609 | One turn of the top-down ageing loop: splicing out or keeping entry `i` extends the aged suffix by one |
| Lifetimes.LiveIsSelect | src/main.ts:600-615 | Ageing keeps exactly the entries that are at most 1000 ms old, position by position and in order, so equal explosions keep their number |
| Lifetimes.LiveKeepsOrder | src/main.ts:600-615 | The kept explosions keep their original order |
| Lifetimes.LiveLater | src/main.ts:600-615 | Ageing at one time and then at a later one is ageing once at the later time. Ageing twice at the same time is ageing once |
| Lifetimes.Step | src/main.ts:768-798 | One turn on bullet `i`. It is spliced out exactly when it hit, reached the ground or is too old, and otherwise is replaced by its moved copy. Bullets before `i` are untouched. After the old explosions, one impact explosion is appended if it hit and one more if it reached the ground, each at the moved bullet's position |
| Lifetimes.StepInPlace | src/main.ts:768-798 | The in-place sequence of moving, appending a burst and a crater, and splicing gives exactly `Step` |
| Lifetimes.Run | src/main.ts:765-800 | The whole top-down pass. The prefix below the current index is untouched. Old explosions are kept in front, and every new one is an impact explosion of size 1 created now |
| Lifetimes.RunExplosionCount | src/main.ts:782-793 | The whole pass adds exactly one explosion per bullet that hit something and one per bullet that reached the ground |
| Lifetimes.RunTurn | src/main.ts:795-798 | One turn of the pass, stated through the survival flag of the bullet it handles |
| Lifetimes.RunShape | src/main.ts:765-800 | After the pass has reached index `lo`, the list is the untouched prefix followed by the moved survivors, in their original order |
| Lifetimes.KeptIff | src/main.ts:790-798 | Bullet `k` survives exactly when, at its turn, its moved copy hit no scene mesh, is above ground and is at most 2000 ms old |
| Lifetimes.UpdateBulletsOutcome | src/main.ts:765-800 | The bullets left are the moved bullets whose survival flag is set, in order, so they form a subsequence of the moved list. Each flag is characterised as in `KeptIff` |
| Lifetimes.SurvivorsAirborneAndYoung | src/main.ts:789-798 | Every bullet left after the pass is above ground and at most 2000 ms old |
| Lifetimes.NothingToHit | src/main.ts:775-786 | When no two boxes ever meet, the scan finds no hit in any scene |
| Lifetimes.OpenSkyOnlyAgeAndGround | src/main.ts:765-800 | With nothing to hit, a bullet survives exactly when its moved copy is above ground and it is not too old |
| Rules.Initial | src/main.ts:9-29 | The initial state satisfies the invariant: score 0, game in play, pointer not locked, no bullets or explosions, shot clock 0, decay clock at construction time, level flight from the start position at base speed |
| Rules.Shoot | src/main.ts:528-560 | A refused shot changes nothing. A refused shot is one without the pointer lock, outside play, or within 100 ms of the last shot. Otherwise exactly one bullet is appended, created now and fired by the airplane. It carries the given mesh id, starts 15 units ahead of the airplane along the heading, and moves 20 units per frame along it. The cooldown restarts and one point is lost, never below zero. Nothing else changes, and the invariant is kept |
| Rules.CooldownAllowsOneShot | src/main.ts:532-533 | Two shots less than 100 ms apart add at most one bullet. Once the first has gone off, the second changes nothing |
| Rules.UpdateScore | src/main.ts:824-840 | The score drops by exactly one, and the decay clock restarts, exactly when a second has passed, there is a point to lose and play goes on. The game is won exactly when it already was or the score reaches 120. The win transition runs at most once. Nothing else changes |
| Rules.CheckCollisions | src/main.ts:617-647 | Outside play nothing happens. During play the game ends exactly when the airplane is below altitude 10 or its box meets a non-excluded mesh or group. A crash adds one size-3 explosion at the airplane and one game-over transition, and changes nothing else. A frame without a crash changes nothing |
| Rules.Restart | src/main.ts:682-707 | Both flags clear and the score is 0. Level flight from the start position at base speed without afterburner. No bullets or explosions. Clocks, pointer lock and transition counts are kept, and the result is in play and satisfies the invariant |
| Rules.Clamp | src/main.ts:507 | The result lies within the bounds. It is the input when the input is within them, the upper bound above them and the lower bound below them |
| Rules.MouseMove | src/main.ts:497-508 | Without the pointer lock nothing changes. Otherwise yaw moves by the horizontal movement (any real number) times 0.005, and pitch by the vertical movement times 0.005, clamped to a quarter turn either way. Nothing else changes |
| Rules.MouseDown | src/main.ts:802-813 | Without the pointer lock nothing changes. The left button is exactly a shot. The right button engages the afterburner at three times the base speed. Other buttons change nothing |
| Rules.MouseUp | src/main.ts:815-822 | Releasing the right button drops back to base speed without afterburner, whether or not the pointer is locked. Any other button changes nothing |
| Rules.UpdateBullets | src/main.ts:765-800 | The bullet pass touches only bullets and explosions, and leaves only bullets that are above ground and at most 2000 ms old. The old explosions stay in front, and one is added per hit and per ground contact. The bullets left are the moved bullets whose survival flag is set, in their original order |
| Rules.UpdateExplosions | src/main.ts:600-615 | Exactly the explosions at most 1000 ms old remain, position by position and in order, and nothing else changes |
| Rules.Animate | src/main.ts:879-924 | A finished game is frozen except for fading explosions. One frame keeps the invariant. It ends the game at most once, and only from a state in play. A finished game stays finished |
| Rules.Apply | src/main.ts:879-924 | Every input event keeps the invariant. Every event other than a restart ends the game at most once and never revives a finished game |
| Rules.InvAlways | src/main.ts:879-924 | After any sequence of events the score is not negative, and the game is not both lost and won |
| Rules.ScoreStaysZero | src/main.ts:824-837 | From a state with no points and no win, every input event, a restart included, leaves no points, no win and the win count unchanged |
| Rules.NeverWon | src/main.ts:835-837 | From such a state, for example the initial one, no sequence of events ever runs the win transition |
| Rules.GameEndsOnce | src/main.ts:846-877 | Between two restarts the game-over and win transitions run at most once in total, and never from a finished game, which stays finished |
| Simulator.FlightSimulator.constructor | src/main.ts:9-29 | The fields start as `Rules.Initial` says |
| Simulator.FlightSimulator.Shoot | src/main.ts:528-560 | The new state is `Rules.Shoot` of the old one, and only the shot clock, score and bullet list may change |
| Simulator.FlightSimulator.GameWon | src/main.ts:846-877 | Sets the win flag and counts one win transition |
| Simulator.FlightSimulator.UpdateScore | src/main.ts:824-840 | The new state is `Rules.UpdateScore` of the old one |
| Simulator.FlightSimulator.GameOver | src/main.ts:649-680 | Sets the game-over flag, appends the size-3 crash explosion at the airplane and counts one game-over transition |
| Simulator.FlightSimulator.CheckCollisions | src/main.ts:617-647 | The scan over the scene's children leaves `Rules.CheckCollisions` of the old state |
| Simulator.FlightSimulator.CheckCollision | src/main.ts:709-763 | Returns the verdict of `Collision.Dispatch` and adds exactly its points to the score |
| Simulator.FlightSimulator.HitsAny | src/main.ts:775-787 | The scan stops at the first hit. It reports a hit exactly when some non-terrain mesh of the scene strikes the bullet, and it leaves the score unchanged |
| Simulator.FlightSimulator.UpdateBullet | src/main.ts:769-798 | One loop turn done in place gives exactly `Lifetimes.Step` |
| Simulator.FlightSimulator.UpdateBullets | src/main.ts:765-800 | The top-down loop leaves `Rules.UpdateBullets` of the old state |
| Simulator.FlightSimulator.UpdateExplosions | src/main.ts:600-615 | The top-down loop leaves `Rules.UpdateExplosions` of the old state |
| Simulator.FlightSimulator.RestartGame | src/main.ts:682-707 | The new state is `Rules.Restart` of the old one |
| Simulator.FlightSimulator.OnPointerLockChange | src/main.ts:432-434 | Only the pointer-lock flag changes, to the given value |
| Simulator.FlightSimulator.OnMouseMove | src/main.ts:497-508 | The new state is `Rules.MouseMove` of the old one |
| Simulator.FlightSimulator.OnMouseDown | src/main.ts:802-813 | The new state is `Rules.MouseDown` of the old one |
| Simulator.FlightSimulator.OnMouseUp | src/main.ts:815-822 | The new state is `Rules.MouseUp` of the old one |
| Simulator.FlightSimulator.Animate | src/main.ts:879-924 | One frame, run as score update, crash test, bullet pass and explosion ageing in that order, leaves `Rules.Animate` of the old state |

## Left out

- Rendering, the DOM overlays and the score display are left out. Only the
  number of times the game-over and win overlays were put up is counted
  (`gameOverCount`, `gameWonCount`).
- The airplane's movement each frame (`updatePlanePosition`) is left out,
  because it is quaternion and floating-point arithmetic. Between restarts
  the airplane's position is a field that only a restart sets.
- The cloud drift and the cats' circling in `animate` are left out, because
  they are trigonometry on floats. The scene objects are fixed values
  supplied at construction.
- The explosions' scale and opacity animation is left out, because it is
  visual only. The afterburner's light intensity and glow opacity are left
  out for the same reason.
- Hiding and showing the airplane (`visible`) is left out, because it is
  visual only.
- World generation (`createTerrain`, `createMountains`, `isNearWater`,
  `isNearBuilding` and the rest) is not part of this model. Its result is
  the `scenery` parameter.
- Time is a parameter, and one animation frame uses a single `now`. The
  source reads the clock separately in each step of a frame. `updateScore`
  reads it (src/main.ts:825), and so do `updateBullets` (766) and
  `updateExplosions` (601). Each `createExplosion` reads it again for the
  explosion's creation time (592). This includes the crash explosion made
  by `gameOver` (651). The model assumes all the reads within one frame
  give the same value. That value is also every new explosion's
  `createdAt`.
- The scheduling by `requestAnimationFrame` becomes the `Animate` calls or
  `FrameTick` events a caller makes. The constructor's own first frame is
  one such call.
- The three.js box computation is left out. `setFromObject` and
  `intersectsBox` become the parameter `intersects`. The airplane's unit
  heading and the new bullet's object id are parameters of a shot.
- Explosions (point clouds) are kept out of the scene lists the scans walk.
  Both scans skip them: the crash test explicitly, and the bullet scan
  because they are not meshes.
- The scene's children are taken in the order scenery, airplane, bullets.
  Both scans only ask whether some child hits, and a bullet against a mesh
  never scores, so the order does not change any result.
- Positions, velocities, pitch and yaw are exact reals. The double-precision
  rounding of `position.add(velocity)`, of the pitch update and clamp, and of
  the `y <= 0`, altitude and pitch comparisons (src/main.ts:503-507, 770,
  790) is not modelled.
- Requesting the pointer lock is left out, because it is a browser call.
  Its outcome arrives as `OnPointerLockChange`.
- Simulator.FlightSimulator.OnPointerLockChange: takes the new lock state as
  a parameter instead of comparing `document.pointerLockElement` with the
  canvas.
