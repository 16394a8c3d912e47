# Snake tick and collect-the-dot bookkeeping, in Dafny

This project models the game logic of two small browser games and proves
properties of it. Drawing, sound, the DOM and timers are left out.

**Snake** (`snake.dfy`, module `Snake`) models `CSC/snake_game/script.js`.
The globals become the fields of class `Snake.Game`. One call of `drawGame` is
`Game.Tick`, which runs these steps in the source's order:

1. `SteerFromInput`: copy the latched input and apply the reversal guard.
2. `ChangeSnakePosition`: move the head.
3. `IsGameOver`: the wall test, then a scan of the body list with a `for` loop and `break`.
4. `CheckAppleCollision`: the apple test. The new apple tile is a nondeterministic choice in `[0, TileCount)`.
5. `PushHead`: the list update of `drawSnake`, a push followed by a `while` loop of shifts.

`KeyDown` is the `keyDown` handler. `KeyDirection` and `Steer` are pure
functions that give the key mapping and the guard. `Game.Valid()` is kept by
every tick that does not end the game. It holds:

- the latched input and the previous velocity are zero or one unit step;
- the head, the apple and every body part lie inside the field;
- `score == tailLength - 2`;
- the body list is no longer than `tailLength` and ends with the head.

**Collect the dot** (`collect.dfy`, module `Collect`) models `2DBGC/game/script.js`.

- Game objects are numbered identities, the identity that `indexOf` compares.
- Bounding boxes are real-valued `Box` values.
- The two arrays `collectibles` and `gameObjects` are `seq` fields of class `Collect.Game`.
- The points display is the counter `points`.

`removeCollectible` is modelled with JavaScript's `indexOf` and `splice(start, 1)`
as they behave, including a negative start. `Game.Update` is the collision half
of `update`. Its first loop (`CollectHits`) gathers the overlapping
collectibles and counts a point for each. Its second loop (`RemoveAll`)
removes each of them from both arrays. `Game.Valid()` holds that:

- every collectible is also a game object;
- neither array holds an object twice;
- the player and the points display stay in `gameObjects` and are not collectibles.

Behaviour the model keeps as the code has it:

- `isGameOver` returns false whenever both velocity components are 0. It skips the self-collision scan too, not only the wall test.
- The self-collision scan compares the moved head with every part pushed in earlier ticks. That includes the oldest part, which this tick's trim would drop.
- Any negative coordinate counts as a wall. On the far side only exactly `TileCount` does. `Tick` keeps the head inside the field, so only -1 and `TileCount` ever occur.
- The trim shifts while the list is longer than `tailLength`. So the list length is at most `tailLength`, and it reaches `tailLength` only after enough ticks.
- The apple may land on the snake's body. The relocation excludes no tile.
- `checkCollisionBetween` uses four strict inequalities. A box of zero width strictly between the sides of another box still collides with it, although they share no area (`ZeroWidthCollides`). For boxes of positive size, the test agrees with "share an interior point" (`CollidesIffSharedInterior`).
- When the object is absent, `indexOf` returns -1 and `splice(-1, 1)` deletes the array's last element (`RemoveAbsent`). In `update` every removed object is present, so this case never arises there.

## Model

| member | source | states |
|---|---|---|
| Snake.KeyDirection | CSC/snake_game/script.js:205-232 | a direction is latched exactly for the eight arrow/WASD codes, and it is always one unit step along one axis |
| Snake.Game.KeyDown | CSC/snake_game/script.js:205-232 | a steering key sets the latch to that key's direction; any other code leaves the latch unchanged; the latch stays zero or a unit step |
| Snake.Steer | CSC/snake_game/script.js:50-68 | the applied velocity is never the exact opposite of a unit previous velocity on either axis; a request that does not reverse is applied as given; zero-or-unit inputs give a zero-or-unit velocity |
| Snake.SteerRightThenLeft | CSC/snake_game/script.js:50-68 | each of the four reversal requests keeps the previous direction, e.g. (-1,0) after (1,0) gives (1,0) |
| Snake.Game.SteerFromInput | CSC/snake_game/script.js:47-72 | the applied velocity is the guard applied to the latched input and the previous velocity, and it becomes the new previous velocity |
| Snake.Game.ChangeSnakePosition | CSC/snake_game/script.js:175-178 | the head moves by exactly the applied velocity |
| Snake.Game.IsGameOver | CSC/snake_game/script.js:110-139 | false whenever both velocity components are 0; otherwise true iff the head is at x < 0, x == TileCount, y < 0 or y == TileCount, or equals some element of the body list |
| Snake.StepStaysInField | CSC/snake_game/script.js:117-126 | a zero-or-unit step from inside the field that hits no wall ends inside the field, so the two edge checks suffice |
| Snake.Game.CheckAppleCollision | CSC/snake_game/script.js:187-202 | a head on the apple raises tailLength and score by exactly 1 and puts the apple on some tile in [0, TileCount); otherwise nothing changes |
| Snake.Trim | CSC/snake_game/script.js:163-167 | the trimmed list has at most n elements, exactly n when there were at least n, and is unchanged when there were at most n |
| Snake.PushTrim | CSC/snake_game/script.js:163-167 | for n >= 1, after pushing the head and trimming to n, the list is non-empty, ends with the head, and the rest is a suffix of the old list, in order |
| Snake.PushTrimInField | CSC/snake_game/script.js:163-167 | when the old parts and the head lie inside the field, the pushed and trimmed list lies inside the field |
| Snake.Game.PushHead | CSC/snake_game/script.js:162-167 | the push-and-shift loop leaves exactly the trimmed list: the head last, at most tailLength parts, a suffix of the old list before it |
| Snake.Game.Tick | CSC/snake_game/script.js:46-108 | one drawGame step: guard, move, then game over iff moving and on a wall or on a part pushed before this tick; an ending tick leaves body, apple, tailLength and score unchanged; otherwise the apple rule and push/trim apply and the invariant (including score == tailLength - 2) is kept |
| Snake.Game.constructor | CSC/snake_game/script.js:17-43 | the initial globals: head (10,10), apple (5,5), tailLength 2, score 0, all velocities 0, empty body |
| Collect.CollidesSymmetric | 2DBGC/game/script.js:68-74 | checkCollisionBetween(a, b) == checkCollisionBetween(b, a) |
| Collect.TouchingDoNotCollide | 2DBGC/game/script.js:71 | boxes that meet only along an edge or at a corner do not collide |
| Collect.SideBySideExample | 2DBGC/game/script.js:71 | (0,0,10,10) and (10,0,10,10) do not collide |
| Collect.SelfCollision | 2DBGC/game/script.js:71 | a box collides with itself iff its width and height are positive |
| Collect.ZeroWidthCollides | 2DBGC/game/script.js:71 | a zero-width box strictly between another box's sides collides with it |
| Collect.CollidesIffSharedInterior | 2DBGC/game/script.js:68-74 | for positive-size boxes, collision holds iff some point lies strictly inside both |
| Collect.IndexOf | 2DBGC/game/script.js:23-24 | -1 iff the object is absent; otherwise a position holding it with no earlier occurrence |
| Collect.SpliceOne | 2DBGC/game/script.js:23-24 | splice(start, 1) deletes one element whenever start < length and the array is non-empty, and nothing when start >= length |
| Collect.RemovePresent | 2DBGC/game/script.js:22-25 | for a present object, the splice removes exactly its first occurrence: the prefix before it and the suffix after it are kept in order, and the multiset loses exactly one copy |
| Collect.RemoveAbsent | 2DBGC/game/script.js:23-24 | for an absent object, indexOf gives -1 and the splice deletes the last element |
| Collect.RemoveDistinct | 2DBGC/game/script.js:22-25 | on an array without repetitions, removing a present object is the same as filtering it out |
| Collect.Game.RemoveCollectible | 2DBGC/game/script.js:22-25 | both arrays are spliced at indexOf; for a collectible, exactly that object leaves both arrays and the invariant is kept |
| Collect.WithoutMembers | 2DBGC/game/script.js:92-95 | after removal of a set, an object remains iff it was present and not in the set |
| Collect.WithoutAppend | 2DBGC/game/script.js:92-95 | removal distributes over concatenation, so the survivors keep their relative order |
| Collect.WithoutKeepsOrder | 2DBGC/game/script.js:92-95 | two survivors appear after removal in the same relative order as before |
| Collect.WithoutTwice | 2DBGC/game/script.js:92-95 | removing one set and then another is removing their union, which is why one-by-one removal equals removing all hits |
| Collect.Hits | 2DBGC/game/script.js:83-90 | the gathered removeItems are exactly the collectibles whose box overlaps the player's |
| Collect.Game.CollectHits | 2DBGC/game/script.js:83-90 | the scan gathers the overlapping collectibles in order and adds one point per hit |
| Collect.Game.RemoveAll | 2DBGC/game/script.js:92-95 | removing a list of distinct collectibles one by one leaves both arrays filtered by exactly that set, with the invariant kept |
| Collect.Game.Update | 2DBGC/game/script.js:76-96 | after the collision pass, points rose by exactly the number of overlapping collectibles; both arrays lost exactly those objects and kept every other object, the player and the points display, in order |
| Collect.Game.Spawn | 2DBGC/game/script.js:42-55 | the new collectible is appended to both arrays, and every collectible is still a game object |
| Collect.Game.constructor | 2DBGC/game/script.js:36-59 | gameObjects starts as [player, pointsDisplay], collectibles empty, points 0 |

## Left out

- Canvas drawing is not modelled: `clearScreen`, `drawApple`, the `fillRect` calls of `drawSnake`, `drawScore` and `render`. They only paint an external surface.
- DOM changes, `scoreMsg.innerText`, adding and removing event listeners, and the restart by `location.reload()` are not modelled. They are user-interface plumbing.
- The sounds `eat.play()` and `over.play()` are not modelled. They return nothing to the game.
- `setTimeout`, `requestAnimationFrame`, `performance.now` and the frame delta are not modelled. Scheduling is external: one `Tick` or `Update` call is one frame.
- Bounding boxes hold exact reals, not IEEE doubles. Sums such as `bbB.x + bbB.w` are exact in the model, and rounding, NaN and infinities are not modelled. So `checkCollisionBetween` may answer differently in the browser when a sum rounds, as `0.1 + 0.2` does. The collision lemmas (`TouchingDoNotCollide`, `SideBySideExample`, `CollidesIffSharedInterior`) hold for exact real boxes only.
- `Math.random` is modelled only by its range. The apple tile is any choice in `[0, TileCount)`, not a uniform draw.
- Player.js, Collectible.js, RandomDispatcher.js and PointsDisplay.js are not part of this model. Object movement (`gameObject.update(dt)`) and `getBoundingBox` are replaced by a `boxOf` argument that gives each object's box after movement. The spawn timing and spawn position are not modelled. The points counter is assumed to start at 0.
- The `onRemove` callback registration (2DBGC/game/script.js:51-54) is not modelled, because Collectible.js decides when it fires. `RemoveCollectible` models what that callback does.
- Snake.Game.PushHead: requires `tailLength >= 0`. With a negative target the source's shift loop would never end. The game keeps `tailLength >= 2`.
- Collect.Game.Spawn: requires that the new object is in neither array. This models a freshly constructed object.
- Collect.Game.RemoveCollectible: promises the invariant only when the object is a collectible. For an absent object it states the splice result but not the invariant.
