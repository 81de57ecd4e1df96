# Planet of the Ants: the game state of main.js

This project models the game logic of `main.js`, the browser game in which
a queen ant is placed on the surface, taken underground into a 20 by 10
grid of soil voxels, moved with the arrow keys and made to lay eggs that
hatch after ten seconds. Without its Three.js presentation, the file is a
small discrete state machine. Its state lives in module-level variables:
`voxelGrid`, `queenGridX`/`queenGridY`, `currentView`, the existence and
visibility of `queenMesh`, `eggs` and `timeSinceLastEgg`. Four handlers
change that state: the click handler, the key handler, `switchView` and the
update part of `animate`.

Files and modules:

- `brood.dfy`, module `Brood`: an egg is its hatch timer. `Survivors(eggs, dt)`
  is one hatching pass: every timer loses `dt`, and the eggs at or below zero
  leave the brood. The lemmas show that eggs hatch independently and in
  order. They also show that several frames act like one frame of the total
  elapsed time, and that an egg with timer `t` stays exactly while less than
  `t` seconds have passed.
- `world.dfy`, module `World`: the game state as a value (`State`) and one
  function per transition: `PlaceQueen`, `Dig`, `Move`, `SwitchView`,
  `KeyDown`, `LayEgg`, `LayingTimer` and `Tick`. It also has the invariant
  `Valid` and the event runner `Step`/`Run`.
- `laws.dfy`, module `Laws`: what the transitions guarantee. Every reachable
  state is `Valid`, soil never comes back, and digging is local and
  idempotent. Moves and view switches have round trips. The first descent
  carves the entry cell. Laying and hatching keep the egg timers exact.
- `colony.dfy`, module `Game`: class `Colony`, the imperative model. Its
  fields are the module-level variables of `main.js`. The grid is an
  `array2<bool>` indexed `[y, x]` like `voxelGrid[y][x]`, with `true` for
  soil. The constructor fills the grid with the nested loops of
  `createUnderground`. `HatchPass` runs the tail-to-head loop of `animate`,
  ageing eggs in place and splicing out hatched ones. Each handler method
  (`PlaceQueen`, `DigAt`, `MoveQueen`, `SwitchView`, `OnKeyDown`, `LayEgg`,
  `AdvanceLayingTimer`, `Tick`) is proved to change the abstract `State()`
  exactly as the matching `World` function does, so every property in
  `Laws` holds of the class. The two hatching steps speak of `eggs` alone:
  `HatchEgg` splices out one egg, and `HatchPass` leaves exactly
  `Survivors` of the old eggs.

Two facts about `main.js` shape the brood model:

- `main.js` has no larvae, pupae, workers, pheromones, food or predators.
  A hatched egg is simply removed; spawning a worker is a TODO at
  main.js:372.
- `layEgg` pushes an egg with `hatchTimer = EGG_HATCH_TIME`, but `animate`
  lays before it hatches in the same frame. So the new egg is aged by that
  frame's `dt` at once, and after the frame its timer is `10.0 - dt`.
  `Laws.TickOutcome` and `Laws.FirstEggScenario` state this. One very long
  frame (`dt >= 10`) lays an egg and hatches it in the same frame.

## Model

| member | source | states |
|---|---|---|
| `Brood.AgedTwice` | main.js:498-502 | ageing an egg by dt1 and then by a non-negative dt2 equals ageing it once by dt1 + dt2: it hatches in the second frame exactly when its timer is at most dt1 + dt2 |
| `Brood.Survivors` | main.js:497-506 | a hatching pass never adds eggs, and every egg it keeps has a positive timer |
| `Brood.SurvivorsBounded` | main.js:499 | a pass lowers every kept timer by dt, so no timer exceeds the old maximum minus dt |
| `Brood.SurvivorsAppend` | main.js:497-506 | eggs hatch independently: the pass over a concatenation is the concatenation of the passes, so relative order is kept |
| `Brood.SurvivorsZero` | main.js:499-501 | a zero-length frame removes no live egg and changes no timer |
| `Brood.SurvivorsCompose` | main.js:497-506 | two frames of dt1 and dt2 (dt2 >= 0) hatch the same eggs and leave the same timers as one frame of dt1 + dt2 |
| `Brood.AfterFramesAppend` | main.js:497-506 | over any run of frames, eggs hatch independently and keep their order |
| `Brood.AfterFramesIsOneFrame` | main.js:495-506 | a run of non-negative frames acts on live eggs as one frame of the total elapsed time |
| `Brood.EggLifetime` | main.js:499-502 | an egg with timer t is present, aged by the elapsed time, exactly while less than t seconds have elapsed, and gone once t is reached |
| `World.Init` | main.js:166-187 | the initial state is valid, every in-bounds cell is soil, and there is no queen, no grid position and no egg |
| `World.KeyStep` | main.js:385-401 | only the four arrow keys ask for a step, each one cell along one axis: Up is (0, -1), Down (0, +1), Left (-1, 0), Right (+1, 0) |
| `Laws.PlaceQueenKeepsValid` | main.js:230-239 | placing the queen keeps the invariant |
| `Laws.DigKeepsValid` | main.js:256-276 | digging keeps the invariant |
| `Laws.MoveKeepsValid` | main.js:289-325 | moving the queen keeps the invariant |
| `Laws.SwitchViewKeepsValid` | main.js:409-474 | switching views keeps the invariant |
| `Laws.KeyDownKeepsValid` | main.js:378-407 | a key press keeps the invariant |
| `Laws.TickKeepsValid` | main.js:486-506 | a frame with dt >= 0 keeps the invariant; the laying timer stays below 5.0 and every egg timer stays in (0, 10.0] |
| `Laws.StepKeepsValid` | main.js:219-506 | every click, key press and non-negative frame keeps the invariant |
| `Laws.RunKeepsValid` | main.js:219-506 | every run of inputs with non-negative frame times keeps the invariant |
| `Laws.QueenStandsOnEmptyCell` | main.js:289-441 | in every reachable state, a queen with a grid position is inside the grid on a cell without soil |
| `Laws.SoilNeverRefills` | main.js:256-276 | no run of inputs turns an empty cell back into soil |
| `Laws.DigOnlyClickedCell` | main.js:256-276 | a dig changes only the grid and at most the clicked cell; with a queen in underground view the cell is empty afterwards, otherwise nothing changes |
| `Laws.DigIdempotent` | main.js:264-275 | digging the same cell twice is the same as digging it once |
| `Laws.DigOutsideGridIsNoop` | main.js:258-265 | a dig outside the grid changes nothing |
| `Laws.DigsCommute` | main.js:256-276 | the order of two digs does not matter |
| `Laws.MoveOutcome` | main.js:289-316 | a move changes only the queen's position; it succeeds exactly when she is placed and positioned and the target is an empty in-bounds cell, and then she is on the target; otherwise nothing changes |
| `Laws.MoveRoundTrip` | main.js:295-315 | in a valid state, a move that succeeded is undone by the opposite move |
| `Laws.OppositeStep` | main.js:388-400 | opposite arrow keys ask for opposite steps |
| `Laws.ArrowRoundTrip` | main.js:384-406 | in a valid state, an arrow key that changed the state is undone by the opposite arrow key |
| `Laws.ArrowUpMovesUp` | main.js:384-406 | underground with the queen, ArrowUp puts her on the cell one row up (y - 1) exactly when it is inside the grid and empty, and otherwise changes nothing |
| `Laws.ArrowLeftMovesLeft` | main.js:384-406 | underground with the queen, ArrowLeft puts her on the cell one column left (x - 1) exactly when it is inside the grid and empty, and otherwise changes nothing |
| `Laws.TabOnlySwitches` | main.js:378-406 | Tab switches the view and moves nothing |
| `Laws.FirstDescent` | main.js:416-441 | the first switch down with a placed, unpositioned queen carves (10, 0), puts her there and shows her; eggs and the laying timer are untouched |
| `Laws.LaterSwitchKeepsPosition` | main.js:416-441 | once the queen is positioned, a switch never moves her and never digs |
| `Laws.SwitchViewTwice` | main.js:409-474 | in a valid state with the queen positioned or not yet placed, two switches restore the state |
| `Laws.PositionedStaysPositioned` | main.js:418-441 | once the queen has a grid position, no input takes it away |
| `Laws.EntryScenario` | main.js:416-441 | from the start, placing the queen and pressing Tab leaves every cell soil except (10, 0), with the queen on (10, 0) in underground view |
| `Laws.TickOutcome` | main.js:486-506 | a frame changes only the eggs and the laying timer. Underground with a visible queen, the timer grows by dt; at 5.0 one egg with timer 10.0 is appended and the timer resets. In other views the timer is untouched. Then all eggs, the new one included, are aged by dt and hatched ones are removed |
| `Laws.AtMostOneEggPerFrame` | main.js:487-493 | one frame lays at most one egg, however long it lasts |
| `Laws.FirstEggScenario` | main.js:486-506 | underground with the queen and no eggs, frames of 2 s and then 3 s leave exactly one egg, with timer 10.0 - 3.0, and the laying timer at 0 |
| `Laws.FrameAppendsToBrood` | main.js:486-506 | a frame ages the eggs it found and only appends after them |
| `Laws.OldEggsLeadTheBrood` | main.js:486-506 | over a run of frames, the eggs already present evolve exactly as `AfterFrames` says, ahead of every egg laid meanwhile |
| `Laws.EggHatchesOnTime` | main.js:497-506 | an egg with timer t stays in its place, aged by the elapsed time, exactly while less than t seconds of frames have passed; no egg hatches early and none stays past its timer |
| `Game.Colony.constructor` | main.js:166-187 | after initialisation every grid cell (x, y) with 0 <= x < 20 and 0 <= y < 10 is soil, and the state is `World.Init()` |
| `Game.Colony.PlaceQueen` | main.js:230-239 | the state changes as `World.PlaceQueen`: one queen, placed only in surface view |
| `Game.Colony.DigAt` | main.js:256-276 | the grid changes as `World.Dig`; only the clicked cell can change |
| `Game.Colony.MoveQueen` | main.js:289-325 | the state changes as `World.Move`; the grid is untouched |
| `Game.Colony.SwitchView` | main.js:409-474 | the state changes as `World.SwitchView` |
| `Game.Colony.OnKeyDown` | main.js:378-407 | the state changes as `World.KeyDown` |
| `Game.Colony.LayEgg` | main.js:327-357 | the state changes as `World.LayEgg` |
| `Game.Colony.HatchEgg` | main.js:359-375 | the egg at the index is spliced out and the others keep their order |
| `Game.Colony.Tick` | main.js:479-506 | one frame changes the state as `World.Tick` and keeps the invariant |
| `Game.Colony.AdvanceLayingTimer` | main.js:486-493 | the laying timer and eggs change as `World.LayingTimer` |
| `Game.Colony.HatchPass` | main.js:495-506 | the in-place tail-to-head loop leaves exactly `Survivors(old eggs, dt)` |

## Left out

- Three.js presentation is left out because it is rendering, not game
  logic. This covers the scene, cameras, lights, meshes, materials,
  `holeMesh`, background colours, `onWindowResize`, `renderer.render`, the
  queen's surface position and the egg meshes' positions.
- Ray casting in `onClick` is left out because it is a library call. A
  click is modelled by what it hit: the ground plane (`PlaceQueen`) or the
  voxel at grid coordinates (x, y) (`DigAt`). So the model does not capture
  an egg mesh in front of a voxel absorbing a click.
- A click on the queen in surface view only logs, so it is not modelled.
  The second `currentView === 'surface'` test inside the click handler can
  never be true.
- The random offset of egg meshes (`Math.random`) is cosmetic and is not
  stored in the egg data.
- `console.log`/`console.warn`/`console.error` and the `window.*` exports
  have no effect on the state.
- `isQueenSelected` is only ever set to false and never read, so it is not
  modelled.
- `requestAnimationFrame` and `clock.getDelta()` are the external frame
  driver. The frame duration is a parameter `dt` with `dt >= 0`.
- Floating point is not modelled: timers are exact `real`s, so the rounding
  of `deltaTime` sums is abstracted away.
- debug-helper.js, game-monitor.js and screenshot.js are not part of this
  model. They drive the game only through key presses and clicks, which the
  `KeyPress`, `GroundClick` and `VoxelClick` events already cover, and
  otherwise only observe it (DOM overlay, screenshots, file writes).
