# Snake game engine, modelled in Dafny

This project models the game-state engine of a browser snake game. The engine
runs on a grid `width` cells wide and `height` cells high. A snake, held head
first, moves one cell per tick along its heading. It dies on a wall (when wall
collision is on) or when it hits itself. Without walls it wraps to the
opposite edge. It grows by one segment and scores 10 points per food. A new
food is placed by rejection sampling over random cells. The game speeds up
with the score according to the selected difficulty. A start/pause/reset
lifecycle and a high score complete the engine.

Layout, one module per concern:

- `grid.dfy`: module `Optional` (the `null` heading and the unplaced `{}` food)
  and module `Grid`. `Grid` holds cells and headings, the one-cell move, the
  180-degree test, and the wrap rule `(x + W) % W` with JavaScript's
  truncating `%`.
- `keys.dfy`: module `Keys`, the mapping from arrow-key codes to headings.
- `speed.dfy`: module `Speed`, the difficulty table and the speed-up policy.
  Speed is counted in half-steps: the game's speed times two. So +0.5 is one
  unit, the cap of 10 is 20, and the start value 5 is 10.
- `rules.dfy`: module `Rules`, one tick as a function on values (`Advance`),
  the board invariant, and why reversals are filtered.
- `food.dfy`: module `Food`, which draw the rejection loop keeps, and when a
  free cell exists at all (a counting argument over the grid).
- `game.dfy`: module `Engine`. Class `Game` holds the module-level state
  (`snake`, `food`, `direction`, `nextDirection`, `score`, `highScore`,
  `speed`, `isPaused`, `isGameOver`, `wallCollisionEnabled`, the selected
  `difficulty`, and `clockArmed` for "the periodic tick is scheduled").
  Its methods are the engine's operations. Each public method is proved to
  keep `Valid()` and to produce the state given by the value-level
  functions. `GameOver`, `GenerateFood` and `IncreaseSpeed` are helpers
  that only a tick calls, in the middle of a state change; their contracts
  state their effect, and the invariant is proved for the tick as a whole.
  `Step` models `update`; its second half, from the food check on, is the
  separate method `MoveOnto`. The module also holds the two scanning loops.

Inputs from the environment become parameters:

- Each call that can place food takes `draws`. This is the sequence of cells
  `Math.random` would produce, already scaled into the grid. The caller
  promises that some draw is free (`FairDraws`).
- The grid size, the stored high score and the selected difficulty are
  constructor parameters.
- The slider value is a whole number.

Behaviour of the code worth noting:

- `increaseSpeed` does not round `50 / growthFactor`. For Easy, Hard and
  Extreme the quotient is exactly 250, 125 and 100. For Medium it is
  166.666…, and no reachable score is a multiple of that double, so Medium
  never speeds up (`Speed.MediumNeverSpeedsUp`).
- `resetGame` only stops the clock and sets the flags; the snake, the food
  and the score stay until the next start.
- Eating keeps the tail, so a three-segment snake grows to four
  (`Rules.EatingScenario`).
- `generateFood` has no full-grid case: with every cell taken its loop never
  ends. The model requires a free draw instead. `Food.FreeCellIffRoom` shows
  a free cell exists exactly while the snake is shorter than the grid.

## Model

| member | source | states |
|---|---|---|
| Grid.Move | index.js:189-202 | a move changes exactly one coordinate by one; vertical headings keep x, horizontal ones keep y |
| Grid.MoveThenBack | index.js:189-202 | a move followed by the opposite move returns to the start cell; opposite is an involution |
| Grid.ReversalIsOpposite | index.js:470-475 | the four-case reversal test holds exactly when the request is the opposite of the current heading, and it is symmetric |
| Grid.JsRem | index.js:217-218 | JavaScript's `%`: magnitude below the divisor, equal to the Euclidean remainder on non-negative operands, never positive on non-positive ones |
| Grid.JsRemIsOdd | index.js:217-218 | the truncating remainder is symmetric about zero: `JsRem(-a, n) == -JsRem(a, n)` |
| Grid.WrapCoord | index.js:217-218 | `(a + n) % n` lands in `[0, n)` for `a >= -n`, fixes in-range values, sends -1 to n - 1 and n to 0 |
| Grid.Wrap | index.js:215-219 | a head at most one grid off any edge is brought back into the grid; a head inside stays put |
| Keys.ArrowKeysRoundTrip | index.js:451-464 | each arrow code maps to its heading; a code maps to a heading only if it is that heading's arrow code; every other code maps to null |
| Speed.InitialSpeed | index.js:46-51 | every level starts at a whole speed below the cap of 10 |
| Speed.SpeedUpPeriod | index.js:536-543 | the speed-up period is `50 / growthFactor` exactly when that is a whole number (period times growth factor is 50), absent otherwise |
| Speed.SpeedAfterMeal | index.js:539-545 | speed never decreases; at or above the cap it is unchanged; from at most the cap it stays at most the cap; it changes, by exactly +0.5, iff it is below the cap and the score is on the period |
| Speed.SpeedStaysInRange | index.js:535-554 | over any run of meals the speed stays between the level's initial speed and the cap |
| Speed.EasyFirstSpeedUpAt250 | index.js:543 | on Easy no score in 1..249 triggers a speed-up and 250 does |
| Speed.MediumNeverSpeedsUp | index.js:543 | on Medium a meal never changes the speed |
| Rules.InitialSnakeWellPlaced | index.js:93-97 | the starting snake is three distinct cells inside any grid of at least 7 by 11, its head one move right of its neck |
| Rules.NextHead | index.js:186-219 | with walls the move fails iff the moved head leaves the grid, else it is the plain move; without walls it always succeeds and is the move wrapped per coordinate; from an in-grid head the result is in the grid |
| Rules.Advance | index.js:181-248 | the tick ends the game exactly when the head's move fails at a wall or lands on a segment other than the last; after a tick that does not end the game, the length grows by 1 when eating and is unchanged otherwise, the old body minus possibly its last cell follows the new head, and eating holds iff the new head is the food |
| Rules.AdvanceKeepsBoard | index.js:217-248 | from a well-formed board, a tick that does not end the game keeps the body distinct and in the grid, keeps the head one move from the neck, and without eating leaves the food off the body |
| Rules.TailCellIsFree | index.js:221-227 | a head moving onto the last segment is not a collision: the snake moves on, eats nothing, and the old tail cell becomes the head |
| Rules.BackToNeck | index.js:189-219 | stepping back against the heading from the head, with wrap, reaches the neck |
| Rules.OnlyReversalReachesNeck | index.js:189-219 | on a grid at least 3 by 3, no heading other than the reverse leads from the head to the neck, with or without wrap |
| Rules.ReversalIsFatal | index.js:466-480 | on a body of three or more, heading the opposite way always ends the game, and any other heading never moves the head onto the neck; this is why reversals are rejected |
| Rules.EatingScenario | index.js:229-244 | on a 10 by 10 grid, eating food straight ahead grows `[(3,3),(2,3),(1,3)]` to `[(4,3),(3,3),(2,3),(1,3)]` |
| Rules.WallScenario | index.js:205-214 | with walls on a grid 4 wide, a head at column 3 moving right ends the game |
| Rules.WrapScenario | index.js:215-219 | without walls on the same grid the head re-enters at column 0 and the tail is dropped |
| Food.GridCells | index.js:416-417 | the set of draws that can occur is exactly the in-grid cells, and there are `width * height` of them |
| Food.Occupied | index.js:421-426 | the cells a body covers are its segments; a body without repeats covers as many cells as it has segments |
| Food.FreeCellIffRoom | index.js:412-427 | a free cell exists iff the snake is shorter than the grid has cells; with the grid full the rejection loop cannot stop |
| Food.FirstFree | index.js:412-427 | the kept draw is free and every earlier draw lies on the body |
| Engine.CollidesWithBody | index.js:222-227 | the scan reports a hit iff some segment other than the last equals the head |
| Engine.OnBody | index.js:421-426 | the scan reports a hit iff the draw is a segment |
| Engine.Game.constructor | index.js:31-43 | initial state: no snake, no food, score 0, heading right, speed 5, not paused, game over, walls on, clock stopped, stored high score |
| Engine.Game.GameOver | index.js:482-504 | the game is over, the clock stopped, and the high score becomes the larger of itself and the score, never lower |
| Engine.Game.GenerateFood | index.js:408-430 | the food is the first free draw, inside the grid and off the snake; nothing else changes |
| Engine.Game.IncreaseSpeed | index.js:535-554 | the speed becomes `SpeedAfterMeal` of the old speed, level and score; the clock is re-armed when the speed changed |
| Engine.Game.Step | index.js:181-249 | the heading is latched; on a crash snake, food, score and speed are unchanged and the game is over with the high score updated; otherwise the snake is `Advance`'s body, the score rises by 10 exactly when eating, food is re-drawn and speed re-computed only when eating; the invariant is kept |
| Engine.Game.MoveOnto | index.js:229-248 | from a free head cell the snake becomes `Advance`'s body, eating iff the head is on the food; on food the score rises by 10, the food is the first free draw and the speed is `SpeedAfterMeal`; otherwise food, score and speed are unchanged; the invariant is restored |
| Engine.Game.ChangeDirection | index.js:466-480 | a null request and a reversal of the current heading leave the pending heading unchanged, any other request becomes it; the pending heading never reverses the current one |
| Engine.Game.HandleKeyPress | index.js:432-449 | Space toggles pause in a game that is not over; R resets; otherwise, only in an unpaused running game, an arrow key requests a heading |
| Engine.Game.TogglePause | index.js:139-154 | nothing once the game is over; otherwise the pause flag flips and the clock runs exactly when not paused |
| Engine.Game.ResetGame | index.js:156-174 | the game is over, not paused, the clock stopped; board and scores untouched |
| Engine.Game.UpdateDifficulty | index.js:506-521 | the level is selected and its initial speed applies; the clock restarts only in a running game |
| Engine.Game.UpdateSpeed | index.js:523-533 | the speed becomes the slider value; the clock restarts only in a running game |
| Engine.Game.SetWallCollision | index.js:69-71 | only the wall flag changes, and the invariant is kept |
| Engine.Game.Init | index.js:91-114 | canonical snake, food on the first free draw, score 0, both headings right, game on, the level's initial speed, clock running |
| Engine.Game.StartGame | index.js:116-137 | after game over a fresh game as in `Init`; when paused only a resume; when running only the clock restarts; afterwards the game runs unpaused |
| Engine.Game.Restart | index.js:60-64 | reset then start always gives the canonical snake, score 0, headings right, and keeps the high score |

## Left out

- Canvas drawing (`draw`, `drawGrid`, `drawSnake`, `drawRoundedRect`, `drawEyes`, `drawFood`): graphics and floating-point geometry, no game state.
- DOM lookups, button enabling, text updates, the game-over overlay, event-listener wiring and the mobile-control CSS. These are user-interface plumbing. The four mobile buttons call `changeDirection` with a fixed heading, which is `Engine.Game.ChangeDirection` with `Some(d)`.
- The grid-lines checkbox: display state only.
- `setInterval`/`clearInterval` and the interval formula `1000 / (gameSpeed * 2)`: timer scheduling and float division. Only whether the tick is armed is kept (`clockArmed`).
- `localStorage`: the stored high score is a constructor parameter, and the write on a new record is not modelled.
- `Math.random`: replaced by a caller-supplied sequence of draws. Whether a real random source ever reaches a free cell is a probabilistic question. The model only shows a free cell exists (`Food.FreeCellIffRoom`).
- `parseInt` of the slider text: the slider value is taken as a whole number.
- Engine.Game.Step: requires the clock to be armed, since `update` is only reached from the armed interval. It also requires a free draw when the tick eats. When the snake eats the food on the last free cell, the code's `generateFood` never returns, and that tick is outside the model.
- Speed.SpeedUpPeriod: the Medium test `score % 166.66666666666669 === 0` is modelled as never true. The double `50 / 0.3` is 2932031007402667 / 2^44, so no integer below 2932031007402667 (about 2.93 × 10^15) is a multiple of it, and no multiple of 10 below about 2.93 × 10^16 is. A score can only reach 10 times the number of grid cells.
