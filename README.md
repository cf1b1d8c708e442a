# Sticky Suika: fruit tiers, fusion and the scene state

This project models the discrete core of a falling-fruit merge game
(`src/main.js`, a single Phaser scene). Fruits come in eleven tiers, from
apple up to watermelon. The player aims one fruit at a time and drops it
into a physics group. When two dropped fruits of the same tier touch, both
are destroyed and one fruit of the next tier appears at their midpoint.
When two watermelons touch, the end screen is shown.

The model has four modules:

- `Wrappers` (`wrappers.dfy`): `Option`, which stands for a table lookup that may be `undefined`.
- `Catalog` (`catalog.dfy`): the tiers, their size table, the ascension table, the spawnable subset and the spawn draw.
  Sizes are exact multipliers of the base fruit size, counted in tenths.
- `Fusion` (`fusion.dfy`): fruits as values with an identity, tier, position and display size.
  It also holds the collision handler's decision (`Resolve`) and the dropped group after a fusion (`Merge`).
- `Scene` (`scene.dfy`): the class `Game`.
  Its fields are the scene's mutable state: the aiming fruit, the dropped group, the started and ended status, the mute flag and the paused state of the music.
  Its methods are the scene's handlers. Each one states the whole new state and keeps the invariant `Valid()`.

Modelling choices:

- The dropped group is a sequence in insertion order, as a Phaser group keeps its children.
  `destroy()` removes a sprite from the group. The model writes that as `Without`, which drops the member with that identity.
- Sprite object identity is an `id` taken from the counter `nextId`.
- The random draw `Math.random()` is a parameter `r` with `0 <= r < 1`.
- The collision handler has no staleness check. It is only ever called with two sprites that are still in the group and that are different objects.
  So `OnCollision` requires `a in dropped && b in dropped && a.id != b.id`.
  This requirement models what `destroy()` does. It is not a check that exists in the code.
  After a fusion, neither input is in the group (`MergeConsumes`), so neither can be fused again.
- `create()` pauses the scene, and the start button resumes it.
  A paused Phaser scene gets neither input events nor physics callbacks.
  So the handlers require `started`.
- The physics world moves dropped bodies. `MoveBody` stands for that, so that collisions see current positions.
  It is a boundary with the engine, not code in the repository.
- The mute button's `pointerdown` does not stop the event from propagating, so the same click also reaches the scene-level `pointerdown` handler.
  In the model that click is `ToggleMute` followed by `PointerDown`.

Three behaviours are kept as the code has them:

- The two-watermelon branch shows the end screen and then calls an undefined free function `gameOver()`.
  That call throws, which ends the handler before the midpoint and the new sprite.
  The model therefore sets `ended` and changes nothing else.
  What the engine does after that uncaught error is outside the model. The model lets later handlers run.
- `createNewSprite` replaces the aiming fruit unconditionally. Its only callers invoke it when there is no aiming fruit.
- Nothing in the code ends the game when the playfield overflows, and the model has no such path either.

## Model

| member | source | states |
|---|---|---|
| Catalog.Rank | src/main.js:12-25 | every tier has a position in the size table, and the table holds that tier at that position |
| Catalog.SizeTenths | src/main.js:13-25 | display sizes lie between 1.0 and 4.0 base sizes; apple alone is the smallest and watermelon alone the largest |
| Catalog.Key | src/main.js:53-66 | each tier's image is requested under a non-empty texture key |
| Catalog.KeyInjective | src/main.js:163 | two fruits have equal texture keys exactly when they have equal tiers, so the key comparison is a tier comparison |
| Catalog.Successor | src/main.js:27-38 | watermelon and only watermelon has no ascension entry; every other tier ascends to the tier one place later in the size table |
| Catalog.SuccessorInjective | src/main.js:27-38 | the ascension table is injective: two tiers with the same entry, or both without one, are the same tier |
| Catalog.SuccessorIsLarger | src/main.js:12-38 | a tier's successor has a strictly larger size |
| Catalog.ChainIsSuffix | src/main.js:13-38 | following successors from any tier walks the rest of the size table in order |
| Catalog.ChainFromApple | src/main.js:13-38 | following successors from apple visits all eleven tiers, each exactly once, and ends at watermelon |
| Catalog.ClimbRank | src/main.js:27-38 | k successor steps exist exactly when they stay inside the table, and they go k positions up |
| Catalog.NoCycle | src/main.js:27-38 | no positive number of successor steps leads back to the starting tier |
| Catalog.ClimbIsLarger | src/main.js:12-38 | sizes strictly grow along any positive number of successor steps |
| Catalog.SizesIncrease | src/main.js:12-25 | sizes are positive and strictly grow with the position in the size table |
| Catalog.SpawnIndex | src/main.js:150-151 | the index floor(r * 4) lies in [0, 4) for r in [0, 1), and each index owns an equal quarter of [0, 1) |
| Catalog.SpawnTier | src/main.js:149-152 | a spawned fruit is always apple, cherry, cutie or strawberry |
| Catalog.SpawnTiersAreSmallest | src/main.js:53-58 | the spawnable tiers are exactly the four smallest tiers of the size table |
| Catalog.SpawnReachesEvery | src/main.js:150-152 | every spawnable tier is the outcome of some draw, so none is starved |
| Catalog.SpawnTierIff | src/main.js:150-152 | a draw yields a tier exactly when the tier is spawnable and the draw lies in that tier's quarter |
| Fusion.Midpoint | src/main.js:170-171 | the fusion point is equidistant from both inputs and lies between them |
| Fusion.Without | src/main.js:173-174 | destroying a sprite keeps exactly the other members of the group |
| Fusion.WithoutAbsent | src/main.js:173-174 | destroying a sprite that is not in the group leaves the group unchanged |
| Fusion.WithoutMultiset | src/main.js:173-174 | destroying a member removes exactly that one fruit and shrinks the group by one |
| Fusion.Resolve | src/main.js:162-205 | different tiers: ignored. Two watermelons: session over. Otherwise a fusion whose product has the successor tier, the fresh identity, the midpoint position and its tier's size |
| Fusion.Merge | src/main.js:173-203 | the group after a fusion ends with the product, and every fruit before it comes from the old group and is neither input |
| Fusion.MergeMembers | src/main.js:170-203 | after a fusion, a fruit is in the group exactly when it was there and is neither input, or it is the product |
| Fusion.MergeMultiset | src/main.js:173-203 | a fusion removes exactly the two inputs, adds exactly one product, and shrinks the group by one |
| Fusion.MergeConsumes | src/main.js:173-203 | after a fusion neither input is in the group, the group has no repeated sprite, and its identities are the old ones minus the inputs plus the product |
| Scene.Spawned | src/main.js:149-158 | a new aiming fruit has the drawn spawnable tier, the fresh identity, position (0, 0) and its tier's size |
| Scene.Game.constructor | src/main.js:44-89 | the scene starts paused and unmuted with music playing, one aiming fruit spawned and an empty dropped group |
| Scene.Game.Start | src/main.js:251-254 | the start button resumes the scene and changes nothing else |
| Scene.Game.ToggleMute | src/main.js:136-146 | the mute flag flips, the music is paused exactly when muted, and no fruit or status changes |
| Scene.Game.ToggleMuteTwice | src/main.js:136-146 | toggling twice restores the whole scene |
| Scene.Game.SpawnPlayer | src/main.js:149-159 | the aiming fruit becomes a fresh fruit of the drawn spawnable tier at (0, 0); the dropped group is untouched |
| Scene.Game.DropPlayer | src/main.js:210-229 | the aiming fruit is appended to the dropped group where it is, and the aiming slot is cleared |
| Scene.Game.PointerMove | src/main.js:102-106 | only the aiming fruit's x changes, and only when there is an aiming fruit |
| Scene.Game.PointerDown | src/main.js:109-115 | with an aiming fruit, it is dropped and a fresh one is spawned, so the group grows by one and a fruit is aimed again; without one, nothing changes |
| Scene.Game.MoveBody | src/main.js:92-97 | the physics world moves one dropped body, and nothing else changes |
| Scene.Game.OnCollision | src/main.js:162-206 | different tiers change nothing. Two watermelons show the end screen and change nothing else. A fusion replaces the two inputs with exactly one product, leaves every other fruit, the aiming fruit and the flags as they were, and shrinks the group by one |

## Left out

- Physics simulation is left out: gravity, bounce 0.5, friction, drag, the circular body, world bounds and collision detection.
  Collisions are caller-supplied pairs, and body movement is `MoveBody`.
- Rendering is left out: the background rectangle, the pop image and its tween, the mute button's text and scaling, and sprite origins.
- Audio playback is left out. Only the requested paused state of the background music is kept (`musicPaused`). The click and pop sounds are not modelled.
- Asset loading in `preload` is left out. The model takes a fruit's tier to be the key it was requested with.
- Honeydew has no image entry, so at run time a honeydew sprite gets Phaser's missing-texture key.
  Two honeydews then find no ascension entry and take the end-screen path, so the program never produces a watermelon.
  The model instead fuses two honeydews into one watermelon.
- Engine behaviour after the uncaught error of the two-watermelon branch is left out. That error most likely stops the frame loop, and with it physics, collision delivery and rendering.
  The model over-approximates: `OnCollision`, `MoveBody` and the input handlers may still run after `ended`.
- Floating point is left out. The base size is `window.innerWidth * 0.04`, a common positive factor, so sizes are exact tenths of it. Positions and the midpoint use exact `real` arithmetic instead of JavaScript float rounding.
- Engine and browser plumbing is left out: DOM bootstrap, `game.destroy`, the scene's pause and resume internals, and `Math.random` as an entropy source. The random value is a parameter.
- The never-called method `gameOver`, which would destroy the game, is left out. The handler calls a free function of that name, which does not exist.
- The physics engine's delivery order is left out. Each collision report is handled on its own, in the order a caller chooses.
