# Breakout gameplay core, modelled in Dafny

This project models the gameplay logic of an early Rust clone of Breakout (breakout-rs). The logic has three parts:

- **The ball** (`BallObject`). It is a game object with a radius and a `stuck` flag. While stuck it does not move. Once free, each frame moves it by `velocity * dt`. It is then pushed back inside the left, right and top edges of the window, and the matching velocity component is negated. There is no bottom wall. `reset` puts the ball back in the stuck state with a new position and velocity.
- **The level layout** (`GameLevel`). A grid of tile numbers becomes an ordered list of bricks. Tile 0 is empty. Tile 1 is a solid brick, `"block_solid"`, tinted (0.8, 0.8, 0.7). A larger tile is a `"block"` brick whose tint depends on the value. Each brick is `level_width / cols` wide and `level_height / rows` high, where `cols` is the length of the first row. Cell (y, x) has its brick at `(unit_w * x, unit_h * y)`, and bricks are appended row by row, left to right.
- **Level cycling** (`EventHandler::handle_keyboard_input`). W shows the next level and S the previous one, both wrapping around. Each key has a "processed" flag, so a held key acts only once; releasing the key re-arms it.

The modules follow the source files:

| module | file | source |
|---|---|---|
| `GameObjects` | game_object.dfy | src/game_object.rs: the object record (position, size, velocity, texture name, tint) |
| `BallObjects` | ball_object.dfy | src/ball_object.rs |
| `GameLevels` | game_level.dfy | src/game_level.rs |
| `Games` | game.dfy | src/game.rs, plus the fields src/event_handler.rs uses |
| `EventHandlers` | event_handler.dfy | src/event_handler.rs |

The source changes state in place, so each stateful part is a class:

- `BallObject` has the fields `gameObj`, `radius` and `stuck`.
- `GameLevel` has a `bricks` sequence that `Init` appends to. The inner loop of `init` (one row) is the method `InitRow`, which `Init` calls once per row.
- `Game` has a `keysProcessed` array of flags indexed by key code.
- `EventHandler` has the current window width and height.

Each method is specified against a pure function:

- `MoveBall` against `FreeStep`.
- `Init` against `Layout`.
- `HandleKeyboardInput` against `OnKey`.

The properties the game relies on are proved about those functions. For the level layout, an independent description lists the occupied cells in row-major order (`Occupied`). The lemmas show that the layout is exactly the bricks of those cells, in the same order. They also show that the number of bricks equals the number of nonzero cells, that every brick lies inside the level region, and that no two bricks overlap.

Where the sources disagree:

- `GameObject::new` in src/game_object.rs takes two arguments, but callers pass five (for the ball) or four (for bricks). The model's record has the fields those callers supply.
- A brick is built without a velocity, so it is at rest, velocity (0, 0).
- `Game` in src/game.rs has only `state`. The model adds the fields that src/event_handler.rs uses: `levels`, `current_level` and `keys_processed`. Their initial values (level 0, every key flag clear) are the model's choice, since src/game.rs:11-15 sets none of them.
- A new game starts in `GameMenu`, as src/game.rs:14 sets it.
- The code only needs each row to be at least as long as the first one, and ignores any extra tiles in longer rows. The model follows the code (`WellFormed`, `Cols`).

Numbers are modelled as follows:

- Positions, sizes, velocities and tints are `real`. `u32` and `usize` values are `nat`.
- A brick offset `unit * index as f32` is written `Offset(unit, index)`.
- The key flags are indexed by winit's `KeyCode` discriminants, `KEY_S` = 37 and `KEY_W` = 41. The proofs only use the fact that the two are different.

## Model

| member | source | states |
|---|---|---|
| `BallObjects.BallObject.constructor` | src/ball_object.rs:18-30 | a new ball is stuck, white, at rest, with size (2r, 2r) and the given position, sprite and radius |
| `BallObjects.BallObject.MoveBall` | src/ball_object.rs:32-50 | a stuck ball is left entirely unchanged; a free ball becomes `FreeStep` of its old state; radius, flag and size are kept; a free ball that fits ends between the side walls and below the top; speed per axis is kept |
| `BallObjects.BallObject.Reset` | src/ball_object.rs:52-58 | position and velocity become the given ones and the ball is stuck again; size, texture, tint and radius are unchanged |
| `BallObjects.Advanced` | src/ball_object.rs:35 | the position moves by exactly `velocity * dt` on each axis, and nothing else changes |
| `BallObjects.BounceX` | src/ball_object.rs:38-44 | at or past the left wall: x is 0 and vx is negated; otherwise, at or past the right wall: x is `width - size.x` and vx is negated; strictly between the walls nothing changes; if the ball fits, x ends in `[0, width - size.x]`; abs(vx) is kept; y, vy and the rest are untouched |
| `BallObjects.BounceTop` | src/ball_object.rs:45-48 | at or above the top: y is 0 and vy is negated; below it nothing changes, however large y is (no bottom wall); y ends non-negative; abs(vy) is kept |
| `BallObjects.FreeStepStaysInside` | src/ball_object.rs:33-48 | after one free frame the ball keeps size, texture and tint, lies in `[0, width - size.x]` horizontally when it fits, has y >= 0, and keeps abs(vx) and abs(vy) |
| `BallObjects.FreeStepTurnsInward` | src/ball_object.rs:38-48 | a ball that crosses the left, right or top wall while moving toward it leaves moving away from it |
| `BallObjects.FreeStepInOpenSpace` | src/ball_object.rs:35-48 | a frame that reaches no wall moves the ball by exactly `velocity * dt` and keeps its velocity |
| `BallObjects.FreeFramesStayInside` | src/ball_object.rs:32-50 | over any non-empty run of free frames, a ball that fits stays between the side walls and below the top, and keeps its size and speed per axis |
| `GameLevels.GameLevel.constructor` | src/game_level.rs:22-24 | a new level has no bricks |
| `GameLevels.GameLevel.Load` | src/game_level.rs:47-49 | an empty grid leaves the bricks unchanged; a non-empty grid appends its layout |
| `GameLevels.GameLevel.Init` | src/game_level.rs:52-107 | the bricks become the old bricks followed by `Layout` of the grid (old bricks are kept as a prefix); with `LayoutCount`, the number added equals the number of nonzero cells |
| `GameLevels.GameLevel.InitRow` | src/game_level.rs:66-101 | one pass of the inner loop over row y appends exactly that row's bricks, left to right, after the old ones |
| `GameLevels.BlockColor` | src/game_level.rs:79-94 | tiles 2 to 5 get a non-white tint; every other value stays white |
| `GameLevels.Brick` | src/game_level.rs:67-100 | a brick sits at its cell's offset, is one unit wide and high, and is at rest; tile 1 is exactly the `"block_solid"` case, tinted (0.8, 0.8, 0.7); larger tiles are `"block"` with the tint `BlockColor` gives |
| `GameLevels.LayoutMatchesCells` | src/game_level.rs:65-101 | the layout has one brick per occupied cell, and brick i is the brick of the i-th occupied cell |
| `GameLevels.OccupiedInOrder` | src/game_level.rs:65-70 | the occupied cells are exactly the nonzero cells within the first row's columns, in strictly increasing row-major order (so each appears once) |
| `GameLevels.LayoutCount` | src/game_level.rs:65-101 | the number of bricks equals the number of nonzero cells, counted as a set |
| `GameLevels.LayoutInside` | src/game_level.rs:59-68 | every brick lies inside `[0, level_width] x [0, level_height]` |
| `GameLevels.LayoutDisjoint` | src/game_level.rs:62-68 | the bricks of two distinct cells never share interior area |
| `GameLevels.FullGridCount` | src/game_level.rs:65-101 | a grid with no empty tile yields exactly rows * cols bricks |
| `Games.Game.constructor` | src/game.rs:11-15 | a new game starts in the menu, on level 0, with every key flag clear |
| `EventHandlers.EventHandler.constructor` | src/event_handler.rs:37-42 | the handler stores the given width and height |
| `EventHandlers.EventHandler.HandleResize` | src/event_handler.rs:111-112 | the stored width and height become the new physical size |
| `EventHandlers.EventHandler.HandleKeyboardInput` | src/event_handler.rs:132-166 | the level and the key flags become `OnKey` of their old values; levels and mode are unchanged; a redraw is requested exactly when W or S acted; a level in range stays in range |
| `EventHandlers.OnKey` | src/event_handler.rs:132-166 | W with its flag clear: next level modulo the count, W flag set. S with its flag clear: a level one W step before the old one, S flag set. A press of a flagged key or of another key: no change. A release never changes the level and clears only the released key's flag. No other flag ever changes, and a level in range stays in range |
| `EventHandlers.NextPrevInverse` | src/event_handler.rs:138-148 | from a level in range, the W step and the S step each stay in range and undo each other |
| `EventHandlers.RunStaysInRange` | src/event_handler.rs:132-166 | after any sequence of key events, a level index in range is still in range |
| `EventHandlers.HeldPressesIgnored` | src/event_handler.rs:135-153 | while W's flag is set, any number of repeated W presses changes nothing |
| `EventHandlers.HeldKeyActsOnce` | src/event_handler.rs:135-140 | a W press followed by any number of repeats advances the level exactly once |
| `EventHandlers.ForwardThenBack` | src/event_handler.rs:138-148 | a W press then an S press, each with its flag clear, return to the starting level |
| `EventHandlers.TapsAdvance` | src/event_handler.rs:135-159 | m presses and releases of W advance the level by m modulo the level count, and leave W re-armed |
| `EventHandlers.FullCycle` | src/event_handler.rs:138 | tapping W once per level returns to the starting level |

## Left out

- Window, GL context, shader, texture and sprite-renderer code (src/main.rs, src/window.rs, src/bin/, src/shader.rs, src/texture.rs, src/sprite_renderer.rs). It is I/O and foreign graphics calls.
- All `draw` methods, `handle_redraw_requested`, `handle_close_requested`, and the empty mouse handlers.
- The GL viewport and surface calls in `handle_resize`. Only the stored size is modelled.
- `window.request_redraw()` is not called. `HandleKeyboardInput` returns a `redraw` flag instead.
- Resource loading (src/resource_manager.rs). Textures are modelled by the name they are looked up under, so a brick records `"block"` or `"block_solid"`, not a texture handle.
- `GameLevel::load` file reading and parsing (src/game_level.rs:33-45). `Load` receives the parsed grid. Parse errors and unreadable files, which panic in the source, are not modelled.
- GameLevels.GameLevel.Init: requires every row to be at least as long as the first one. A shorter row makes the source panic on an out-of-range index.
- EventHandlers.EventHandler.HandleKeyboardInput: requires at least one level and a flag array that covers both keys, so a game with no levels is not modelled at all. On such a game the source panics only for two events: a W press with its flag clear (remainder by zero, src/event_handler.rs:138) and an S press at level 0 with its flag clear (`usize` underflow, src/event_handler.rs:148). Releases, other keys, flagged presses and an S press at a level above 0 run normally there, and the model does not cover them.
- EventHandlers.OnKey: level indices are unbounded, so a `usize` overflow of `current_level + 1` is not modelled.
- BallObjects.BallObject.MoveBall: `f32` rounding is not modelled. All arithmetic is exact over the reals.
- GameLevels.UnitWidth: a first row with no tiles yields no bricks. The source then divides by zero (giving infinity or NaN in `f32`) but never uses the result; the model uses 0 instead.
- Collision detection, paddle movement and bounce, lives, the win/lose transitions and level reload do not appear in the source files and are not modelled.
