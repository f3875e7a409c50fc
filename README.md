# Flappy Meme: a verified model of the game engine

Flappy Meme is a browser side-scroller. The player flaps a meme-faced bird
through gaps between pipe pairs that scroll in from the right. All of the
game's logic lives in the `FlappyMeme` component. It has:

- a session object holding the bird, the active pipes, the set of pipe ids
  already scored and a frame counter;
- the `startGame` and `jump` handlers;
- the per-frame `gameLoop`, which applies gravity, spawns pipes, moves,
  scores, collision-tests and filters the pipes, and checks the field bounds;
- the updaters behind the "next meme" and "theme" buttons.

This project models that logic in Dafny and proves what it promises.

- `rules.dfy` (module `Rules`) holds the pure per-frame rules:
  - the constants of the 800 x 500 logical field (gravity 0.5, jump -9,
    pipe speed 3, gap 180, pipe width 60, spawn every 90 frames at x = 800,
    bird at x = 100 with half-size 25);
  - the score, collision and bounds tests;
  - the spawn step;
  - `PipePass`, the specification of the in-order pipe pass, written as a
    fold;
  - the lemmas about `PipePass` and about free fall.
- `game.dfy` (module `Engine`) holds the class `Game`. Its fields are the
  session state: `birdY`, `vel`, `pipes`, `frame`, `scored`, `score`,
  `highScore` and `status`. Its methods `StartGame`, `Jump`, `Tick` and
  `PassPipes` update those fields in place, as the handlers do. `PassPipes`
  is the loop of the pipe filter. It is proved equal to `PipePass`.
  `Valid()` is the session invariant. The constructor, `StartGame`, `Jump`
  and `Tick` keep it:
  - the score equals the number of credited ids;
  - the high score is at least the score;
  - pipe ids strictly increase along the list;
  - each pipe sits at `800 - 3 * (frame - id + 1)`;
  - each gap top lies in `[50, 270)`, so the gap bottom is above 450.
- `cosmetics.dfy` (module `Cosmetics`) holds the meme-index and theme
  updaters as functions.

Numbers: the bird's height, its velocity and the gap top are `real`. The gap
top comes from `Math.random()` and is not a multiple of 0.5. The bird values
are multiples of 0.5 with small magnitude, so JavaScript doubles hold them
exactly. Pipe x, frame and ids are `int`.

Inputs from the host become parameters:
- `Math.random()` becomes the `gapY` argument of `Tick`, required to lie in
  `[50, 270)`. This is the range of `Math.random() * 220 + 50`.
- One `requestAnimationFrame` callback is one call of `Tick`.

In the source, `score` and `highScore` are React state, separate from the
session object. Here they are fields of the same class, because they change
at the same points.

## Model

| member | source | states |
|---|---|---|
| `Engine.Game.constructor` | web/src/app/page.jsx:63-85 | The page opens in status `start`: bird at y = 250 with velocity 0, no pipes, nothing scored, frame 0, score 0, high score 0. |
| `Engine.Game.StartGame` | web/src/app/page.jsx:233-247 | Starting a session leaves exactly the new-session state: y = 250, velocity 0, no pipes, empty scored set, frame 0, score 0, status `playing`. The high score is untouched and the invariant holds. |
| `Engine.Game.Jump` | web/src/app/page.jsx:249-256 | From `start`, a flap starts a session. While `playing`, it sets the velocity to exactly -9 whatever it was, so flaps do not compound, and changes nothing else. After `gameOver` it changes nothing. |
| `Engine.Game.Tick` | web/src/app/page.jsx:288-456 | Outside `playing`, a frame changes nothing. In `playing`: frame + 1, velocity + 0.5, then y + new velocity. A pipe with id = frame is spawned exactly when the frame is a multiple of 90. The pipe list, scored set and score are then what the pipe pass gives. The high score becomes max(old high score, new score). The game is over iff some pipe collided or the bird left the field. The session invariant is kept, including strictly increasing ids and x = 797 for a pipe spawned this frame. |
| `Engine.Game.PassPipes` | web/src/app/page.jsx:338-413 | The filter loop mutates the scored set, score, high score and status in place, and its result equals `PipePass` of the old pipes and old scored set. A collision sets `gameOver` without stopping the loop. Bird and frame are unchanged. |
| `Engine.FallWithoutInput` | web/src/app/page.jsx:233-456 | From a new session with no input, the game ends after exactly 30 frames, with y = 482.5 and score 0. No pipe is met, since the first one spawns in frame 90. |
| `Rules.Shift` | web/src/app/page.jsx:340 | Scrolling moves a pipe left and changes neither its id nor its gap. |
| `Rules.Passed` | web/src/app/page.jsx:386 | A pipe has passed the bird iff its left edge is left of x = 15, so its right edge is left of the bird's left edge at 75. |
| `Rules.Credited` | web/src/app/page.jsx:384-386 | A pipe earns a point iff its id is not yet in the scored set and its left edge is left of x = 15. |
| `Rules.Survives` | web/src/app/page.jsx:403-413 | A shifted pipe stays on the list iff its x > -60 and either it does not overlap the bird's column (x <= 15 or x >= 125) or the bird's box fits inside the gap: gap top + 25 <= y and y + 25 <= gap top + 180. |
| `Rules.OutOfBounds` | web/src/app/page.jsx:449-452 | The bird hits the floor or the ceiling iff its centre leaves [25, 475]. |
| `Rules.Spawn` | web/src/app/page.jsx:329-336 | The old pipes stay first and unchanged. When the frame is a multiple of 90, exactly one pipe is appended: x = 800, the given gap top, and the frame as its id. Otherwise the list is unchanged. |
| `Rules.Collides` | web/src/app/page.jsx:397-411 | The bird's 50 x 50 box overlaps the pipe horizontally and leaves the 180-high gap vertically. A colliding pipe has 15 < x < 125, so it can never be one that scores in the same frame (scoring needs x < 15). |
| `Rules.Max` | web/src/app/page.jsx:391 | The high-score updater returns one of its arguments and is at least both, so the high score never decreases. |
| `Rules.PipePass` | web/src/app/page.jsx:338-413 | The pass never removes a credited id and never lengthens the pipe list. |
| `Rules.PassScoredIds` | web/src/app/page.jsx:384-395 | After the pass, the scored set is the old set plus the ids of exactly those pipes whose shifted right edge is left of x = 75. |
| `Rules.PassPointsAreNewIds` | web/src/app/page.jsx:384-395 | The points awarded equal the number of ids newly added to the scored set, so each pipe id is credited at most once per session. |
| `Rules.PassHit` | web/src/app/page.jsx:403-411 | The pass reports a collision iff some shifted pipe collides with the bird. |
| `Rules.PassKept` | web/src/app/page.jsx:339-413 | Every kept pipe is an input pipe moved left by 3 with nothing else changed, and it survives. Every input pipe that survives after the shift is kept. A pipe survives iff it did not collide and its new x > -60. |
| `Rules.PassKeptIsFilter` | web/src/app/page.jsx:339-413 | For any list and any scored set, the kept list is exactly the in-order filter of the shifted pipes by the keep rule (`Rules.Survivors`), so the pass neither reorders nor duplicates pipes. |
| `Rules.PassKeepsOrder` | web/src/app/page.jsx:339-413 | The filter keeps the survivors in their order: strictly increasing ids stay strictly increasing. |
| `Rules.SpawnInOrder` | web/src/app/page.jsx:329-336 | Spawning keeps ids strictly increasing. The new pipe carries the current frame as id and starts at x = 800 with its gap in range. |
| `Rules.PassInPlay` | web/src/app/page.jsx:338-413 | A pass over an ordered list of placed pipes leaves the survivors ordered, placed for this frame, and with x > -60. |
| `Rules.FrameKeepsPipesInPlay` | web/src/app/page.jsx:329-413 | Spawn followed by the pass takes a pipe list valid at the previous frame to one valid at this frame. Every point it awards is one new credited id. |
| `Rules.FreeFall` | web/src/app/page.jsx:325-326 | n frames without input, each adding 0.5 to the velocity and then the new velocity to y, raise the velocity by exactly 0.5 n from any start. |
| `Rules.FreeFallFromStart` | web/src/app/page.jsx:325-326 | With no input from y = 250 at rest, after n frames the velocity is 0.5 n and y = 250 + 0.5 (1 + ... + n) = 250 + n (n + 1) / 4. |
| `Rules.FreeFallLeavesFieldAt30` | web/src/app/page.jsx:449-456 | With no input, the bird is in the field for frames 0 to 29. It is out of bounds (box bottom > 500) exactly from frame 30 on. |
| `Cosmetics.NextMeme` | web/src/app/page.jsx:259 | The next face index is always one of the 8 faces: the next one, or 0 after the last. |
| `Cosmetics.PressNextMemeMovesBy` | web/src/app/page.jsx:259 | Pressing the button k times moves (m + k) mod 8 places from face m. |
| `Cosmetics.MemeCycleIsFull` | web/src/app/page.jsx:259 | For 1 <= k <= 8, k presses return to the starting face iff k = 8, so every face is visited. |
| `Cosmetics.ToggleTheme` | web/src/app/page.jsx:265 | The theme button always switches to the other palette. |

## Left out

- Rendering is not modelled: canvas gradients, stars and clouds, pipe and
  bird drawing, the sprite tilt, and the choice of text, image or emoji. None
  of it changes the game state.
- The responsive canvas size and the scale factor are not modelled. They
  touch only drawing; the game logic always works in the 800 x 500 logical
  field.
- Sounds are not modelled: the jump, score and die sounds, the generated
  background melody and custom music playback. They are browser audio calls
  with no effect on the state.
- Image and music uploads are not modelled. They are asynchronous file
  reads and affect only drawing and sound.
- `changeMeme` also clears the uploaded image. Only its index update is
  modelled.
- The custom text input, its submit handler and the page markup are not
  modelled. They are presentation only.
- Frame scheduling is not modelled: `requestAnimationFrame`, its
  cancellation and React's batching of state updates and effect re-runs.
  One frame is one `Tick` call, and `Tick` does nothing unless the status is
  `playing`. The source ends a frame by setting React state. The model
  therefore assumes React applies a `gameOver` before the next animation
  frame would run. It does not model a possible extra frame callback between
  `setGameState("gameOver")` and the effect cleanup.
- Floating-point rounding is not modelled. The model uses exact reals.
