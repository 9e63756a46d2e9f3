# Whack-a-mole session state machine, in Dafny

This project models the game logic of a browser "whack-a-mole" game. A goblin
appears on a square grid once per interval tick. The player has to click it
before five misses build up, and ten hits win.

Two components are modelled:

- **The board surface** (`GamePlay`, module `Board`). It holds the grid of
  cells, three listener registries (cell enter, cell leave, cell click) and the
  flags `gameActive`, `isModal` and `missCounter`. A cell is reduced to what the
  game logic reads back: whether the character element is inside it, and its
  set of CSS classes.
- **The controller** (`GameController`, module `Controller`). It holds
  `isGameActive`, `currentGoblinPosition`, the cell last selected, and a hit/miss
  tally (`ClickCounter`, module `Counter`). It also holds the host's timers: the
  handle of the current interval, the set of intervals still firing, and the
  number of 500000 ms safety timeouts still pending.

Each entry point runs to completion and is a method of `GameController`:

- a firing of a live interval (`Tick`);
- a click on a cell (`ReactOnClick`);
- the mouse entering a cell (`OnCellEnter`);
- a firing of a pending safety timeout (`SafetyTimeoutFires`);
- the modal's "new game" button (`ConfirmNewGame`).

Each method is proved to compute a function of the whole session: `TickStep`,
`ReactOnClickStep`, `CellEnterStep`, `SafetyTimeoutStep` and `ResetStep`. The
properties are lemmas about those functions, in module `SessionProperties`.
They are also stated as the invariant `Inv`, which every entry point keeps
(`ensures old(Valid()) ==> Valid()`).

The most important facts proved:

- At most one interval is live, and it is always the current one.
- The rendered board always agrees with `currentGoblinPosition`, so hit
  detection by rendered content equals comparison with the recorded position.
- The end-of-game modal can never open.
- The `selected-generic` branch of `onCellEnter` never runs.
- Five unclaimed ticks lose the game. Ten claims in a row win it and restart it.

Several behaviours of the code are reproduced as written. In each case the
code differs from what one would expect the game to do:

- `showModalMessage` returns at once unless `isModal` is already true. Nothing
  sets `isModal` to true before that guard, so no end-of-game modal ever opens.
  The model proves this (`Board.ModalMessageIsInert`,
  `SessionProperties.ModalNeverOpens`).
- A loss detected on a tick stops the game (`isGameActive = false`, interval
  cleared) but does not call `reset`. The tally stays at five misses
  (`SessionProperties.TickCountsMiss`).
- `reactOnClick` has no `isGameActive` guard. Clicks are tallied after a
  tick-detected loss, and a hit re-arms the interval
  (`SessionProperties.ClickIgnoresGameFlag`).
- `onCellEnter` looks for a `selected-generic` class, but `selectCell` with its
  default colour only adds `selected-yellow`. The deselect branch is dead
  (`Board.DefaultSelectionIsNotGeneric`, `Controller.CellEnterPreservesInv`).
- Each `showCharacter` arms one more safety timeout, and none is ever
  cancelled. When one fires it clears whatever interval is current
  (`SessionProperties.SafetyTimeoutClearsCurrent`,
  `SessionProperties.HitsArmSafetyTimeouts`).

## Model

| member | source | states |
|---|---|---|
| `Board.DrawnCells` | src/js/components/GamePlay/GamePlay.js:54-67 | the grid built for side n has n*n cells, none holding the character, each with the tile classes |
| `Board.Emptied` | src/js/components/GamePlay/GamePlay.js:75-77 | emptying the cells removes the character from every cell and keeps length and class lists |
| `Board.WithCharacterAt` | src/js/components/GamePlay/GamePlay.js:75-84 | after a redraw, cell i holds the character iff the position is exactly i (so no cell when out of range or undefined); classes kept |
| `Board.WithoutSelection` | src/js/components/GamePlay/GamePlay.js:122-127 | deselection keeps exactly the classes not starting with `selected` |
| `Board.WithSelection` | src/js/components/GamePlay/GamePlay.js:117-120 | selection adds `selected` and `selected-<color>`, keeps every non-selection class, and leaves no other selection class |
| `Board.Dispatch` | src/js/components/GamePlay/GamePlay.js:102 | every listener is called once with the index, in registration order |
| `Board.EmptyCells` | src/js/components/GamePlay/GamePlay.js:182-184 | the emptying loop computes `Emptied` |
| `Board.GamePlay.constructor` | src/js/components/GamePlay/GamePlay.js:7-21 | unbound, no cells, empty listener lists, `isModal` false, `missCounter` 0, `gameActive` true |
| `Board.GamePlay.BindToDom` | src/js/components/GamePlay/GamePlay.js:23-28 | binding sets the container and changes nothing else |
| `Board.GamePlay.DrawUi` | src/js/components/GamePlay/GamePlay.js:42-68 | fails with `NotBound` and changes nothing when never bound; otherwise replaces the cells with exactly boardSize*boardSize empty cells |
| `Board.GamePlay.RedrawPositions` | src/js/components/GamePlay/GamePlay.js:70-85 | no change while `gameActive` is false; otherwise the cells become `WithCharacterAt(cells, position)` and nothing else changes |
| `Board.GamePlay.AddCellEnterListener` | src/js/components/GamePlay/GamePlay.js:87-89 | appends one callback to the enter list; the other lists are unchanged |
| `Board.GamePlay.AddCellLeaveListener` | src/js/components/GamePlay/GamePlay.js:91-93 | appends one callback to the leave list; the other lists are unchanged |
| `Board.GamePlay.AddCellClickListener` | src/js/components/GamePlay/GamePlay.js:95-97 | appends one callback to the click list; the other lists are unchanged |
| `Board.GamePlay.CellEnter` | src/js/components/GamePlay/GamePlay.js:99-103 | each enter listener is called with the cell's index, in order |
| `Board.GamePlay.CellLeave` | src/js/components/GamePlay/GamePlay.js:105-109 | each leave listener is called with the cell's index, in order |
| `Board.GamePlay.CellClick` | src/js/components/GamePlay/GamePlay.js:111-115 | each click listener is called with the cell's index, in order, then `missCounter` becomes 0 and nothing else changes |
| `Board.GamePlay.SelectCell` | src/js/components/GamePlay/GamePlay.js:117-120 | only cell `index` changes: its classes become `WithSelection(classes, color)`, default colour `yellow` |
| `Board.GamePlay.DeselectCell` | src/js/components/GamePlay/GamePlay.js:122-127 | only cell `index` changes: it loses exactly its `selected…` classes |
| `Board.GamePlay.ShowModalMessage` | src/js/components/GamePlay/GamePlay.js:143-148 | when `isModal` is false nothing changes; otherwise the modal opens and `gameActive` becomes false |
| `Board.GamePlay.ResetGame` | src/js/components/GamePlay/GamePlay.js:179-190 | `missCounter` 0, `gameActive` true, `isModal` false, modal dropped, every cell emptied, nothing else changes |
| `Board.CountOfSingleMark` | src/js/components/GamePlay/GamePlay.js:78-84 | when only index p can be marked, the board counts one character if p is a cell and none otherwise |
| `Board.RedrawLeavesOneCharacter` | src/js/components/GamePlay/GamePlay.js:75-84 | a redraw leaves exactly one character for an in-range position and none otherwise |
| `Board.SelectionTouchesOneCell` | src/js/components/GamePlay/GamePlay.js:117-127 | select and deselect change the class list of one cell only, never the character, and no other cell |
| `Board.DefaultSelectionIsNotGeneric` | src/js/components/GamePlay/GamePlay.js:117-119 | selecting with the default colour never yields the `selected-generic` class |
| `Board.ModalMessageIsInert` | src/js/components/GamePlay/GamePlay.js:143-148 | with `isModal` false, `showModalMessage` leaves the board unchanged |
| `Board.ResetIsSteady` | src/js/components/GamePlay/GamePlay.js:179-190 | after `resetGame` the modal is closed, the game flag is on, `missCounter` is 0 and no cell holds the character |
| `Board.SteadyPreserved` | src/js/components/GamePlay/GamePlay.js:70-127 | redrawing and selecting with the default colour keep the modal closed, the game flag on and no `selected-generic` class |
| `Counter.ClickCounter.constructor` | src/js/components/GameController/GameController.js:20 | a new tally has 0 hits and 0 misses |
| `Counter.ClickCounter.IncrementHit` | src/js/components/GameController/GameController.js:87 | one more hit, misses unchanged |
| `Counter.ClickCounter.IncrementMiss` | src/js/components/GameController/GameController.js:61 | one more miss, hits unchanged |
| `Counter.ClickCounter.Reset` | src/js/components/GameController/GameController.js:110 | both counts back to 0 |
| `Controller.ShowCharacterLeavesOneInterval` | src/js/components/GameController/GameController.js:51-76 | `showCharacter` clears the old interval before arming a fresh one, leaves exactly that one live, and adds one pending safety timeout |
| `Controller.ResetEstablishesInv` | src/js/components/GameController/GameController.js:108-114 | after `reset`: hits 0, misses 0, no position, game active, exactly one live interval, one more pending timeout, invariant holds |
| `Controller.TickPreservesInv` | src/js/components/GameController/GameController.js:55-73 | a tick keeps the session invariant |
| `Controller.ReactOnClickPreservesInv` | src/js/components/GameController/GameController.js:82-106 | a click keeps the session invariant |
| `Controller.SafetyTimeoutPreservesInv` | src/js/components/GameController/GameController.js:75-80 | a safety timeout firing keeps the session invariant |
| `Controller.CellEnterPreservesInv` | src/js/components/GameController/GameController.js:35-44 | entering a cell never takes the `selected-generic` branch, only selects that cell, records it, and keeps the invariant |
| `Controller.GameController.constructor` | src/js/components/GameController/GameController.js:6-15 | game active, no position, no selection, no interval ever armed, empty tally |
| `Controller.GameController.Init` | src/js/components/GameController/GameController.js:17-23 | registers the three handlers; fails with `NotBound` when the board was never bound; otherwise draws the grid, starts a fresh tally and arms the first interval; nothing else on the board changes (the cells only on the bound path) |
| `Controller.GameController.Events` | src/js/components/GameController/GameController.js:25-29 | appends the enter, leave and click handlers to their own lists |
| `Controller.GameController.OnCellEnter` | src/js/components/GameController/GameController.js:35-44 | runs only once `EnterHandler` is registered; computes `CellEnterStep`; fails only where the source would throw, never from a valid state |
| `Controller.GameController.ResetTimer` | src/js/components/GameController/GameController.js:78-80 | clears the current interval |
| `Controller.GameController.ShowCharacter` | src/js/components/GameController/GameController.js:51-76 | computes `ShowCharacterStep` |
| `Controller.GameController.Tick` | src/js/components/GameController/GameController.js:55-73 | allowed only while interval `id` is live; computes `TickStep` and keeps the invariant |
| `Controller.GameController.ReactOnClick` | src/js/components/GameController/GameController.js:82-106 | runs only once `ClickHandler` is registered; computes `ReactOnClickStep` from the rendered cell and keeps the invariant |
| `Controller.GameController.Reset` | src/js/components/GameController/GameController.js:108-114 | computes `ResetStep` |
| `Controller.GameController.SafetyTimeoutFires` | src/js/components/GameController/GameController.js:75 | allowed only while a timeout is pending; one fewer pending and the current interval cleared |
| `Controller.GameController.ConfirmNewGame` | src/js/components/GamePlay/GamePlay.js:172-176 | the board's `resetGame`, then `onRestart`, which is `reset`; keeps the invariant `Inv` |
| `SessionProperties.TickWhileInactive` | src/js/components/GameController/GameController.js:56-59 | a tick with the game flag off only cancels the interval; tally, position and board unchanged |
| `SessionProperties.TickCountsMiss` | src/js/components/GameController/GameController.js:60-67 | a tick with a recorded position adds exactly one miss; at five misses the game stops, the interval is cancelled, no position is drawn, the tally is not reset |
| `SessionProperties.TickSpawns` | src/js/components/GameController/GameController.js:70-72 | a tick that does not end the game records the position and draws the character there and only there; a miss is counted only when a character was recorded, and no safety timeout is added or cancelled |
| `SessionProperties.UnclaimedTicksLose` | src/js/components/GameController/GameController.js:55-73 | ticks with the character never claimed lose at exactly five misses, with no live interval left |
| `SessionProperties.FreshSessionLostAfterSixTicks` | src/js/components/GameController/GameController.js:108-114 | after a reset, six ticks without a click lose the game with five misses |
| `SessionProperties.TickAfterResetDraws` | src/js/components/GameController/GameController.js:70-72 | the first tick after a reset draws a new character |
| `SessionProperties.AtMostOneLiveInterval` | src/js/components/GameController/GameController.js:52-55 | at most one interval is live, and it is the current one |
| `SessionProperties.ShowCharacterTwice` | src/js/components/GameController/GameController.js:51-76 | two `showCharacter` calls in a row leave exactly one live interval and two more pending timeouts |
| `SessionProperties.SafetyTimeoutClearsCurrent` | src/js/components/GameController/GameController.js:75-80 | a firing safety timeout clears whatever interval is current |
| `SessionProperties.HitsArmSafetyTimeouts` | src/js/components/GameController/GameController.js:89-97 | a hit leaves one more pending safety timeout, a winning hit two more; none is cancelled |
| `SessionProperties.HitDetectionMatchesPosition` | src/js/components/GameController/GameController.js:83-86 | in every reachable state, the clicked cell holds the character iff it is `currentGoblinPosition` |
| `SessionProperties.ClickOnCharacter` | src/js/components/GameController/GameController.js:86-93 | a hit below the win threshold adds one hit, keeps misses, records and draws a fresh position, and restarts the interval |
| `SessionProperties.ClickBesideCharacter` | src/js/components/GameController/GameController.js:99-104 | a miss below the loss threshold adds one miss and changes nothing else |
| `SessionProperties.ThresholdClickResets` | src/js/components/GameController/GameController.js:95-114 | the tenth hit or a miss reaching five starts a fresh session with one live interval |
| `SessionProperties.ClickResetsIff` | src/js/components/GameController/GameController.js:95-104 | a click zeroes the tally exactly when it is the tenth hit or a miss reaching five |
| `SessionProperties.ClickIgnoresGameFlag` | src/js/components/GameController/GameController.js:82-106 | the click's effect on tally, position, board and intervals does not depend on `isGameActive` |
| `SessionProperties.TallyMonotoneBetweenResets` | src/js/components/GameController/GameController.js:60-104 | ticks and clicks never lower hits or misses except by a full reset |
| `SessionProperties.ClaimsWin` | src/js/components/GameController/GameController.js:86-98 | clicking the drawn character until ten hits wins, and the game restarts |
| `SessionProperties.ClaimsCount` | src/js/components/GameController/GameController.js:86-93 | fewer claims add exactly that many hits and leave misses unchanged |
| `SessionProperties.ModalNeverOpens` | src/js/components/GamePlay/GamePlay.js:143-148 | in every reachable state, the end-of-game message changes nothing and the board's game flag stays on |

## Left out

- DOM construction and styling are not modelled. This covers the `innerHTML`
  templates, element creation, the board's theme class, the per-tile class from
  `calcTileType` (not part of this model), and `preventDefault`. A drawn cell
  carries only the classes `cell` and `map-tile`.
- The controller's `onCellLeave` (src/js/components/GameController/GameController.js:46-49),
  `hideCellTooltip` and `setCursor` are not modelled. They touch only the
  tooltip and the cursor, which the game logic never reads back. The same holds
  for the `setCursor` call in `onCellEnter`. The board's own `onCellLeave` is
  modelled as `CellLeave`.
- The `Modal` class is not modelled, because its source is not part of this
  model. The document-level cancel listener in `initModalListener` is also left
  out. So are the message and icon arguments of `showModalMessage`, since the
  modal never opens. `currentModal` is the flag `modalOpen`. The confirm button
  is `ConfirmNewGame`.
- `bindToDOM` throws when its argument is not an `HTMLElement`. That is a
  host-type test. Binding is modelled only as "container set".
- Real time is not modelled. `setInterval` and `setTimeout` become explicit
  calls: `Tick` (allowed while its interval is live) and `SafetyTimeoutFires`
  (allowed while a timeout is pending). The delays are recorded as constants
  only. Interval handles are positive numbers given out in increasing order,
  and 0 stands for the undefined handle.
- `createPosition` (not part of this model) becomes a parameter `p` with
  `0 <= p < boardSize * boardSize`. Its randomness is not modelled.
- `ClickCounter` (not part of this model) is two counts with the method names
  the controller calls. Its rendering into the page is not modelled. The source
  leaves the tally `null` until `init`, so a click handled before `init` would
  throw. The model creates a tally in the constructor as well and does not
  model that error.
- Listener calls are not run. The board's dispatch (`CellEnter`, `CellLeave`,
  `CellClick`) returns the sequence of calls it makes, one `Call` per registered
  listener in order. The controller's handlers `OnCellEnter` and `ReactOnClick`
  are separate entry points. They require their handler to be registered, but
  nothing ties one dispatched `Call` to one run of the handler.
- `ConfirmNewGame` drops the `if (this.onRestart)` guard of the confirm button
  and always runs `reset` after `resetGame`. The hook is set by `init`, and the
  button exists only in a modal, which never opens.
- Cell events carry the index of the cell they came from. The `-1` that
  `indexOf` would give for an element outside `cells` cannot arise.
- `redrawPositions(null)` is not modelled. On a drawn board it passes the range
  test and throws when appending to a missing cell. The controller always passes
  a number, and `RedrawPositions(None)` models only an `undefined` position.
- `maxMisses` is set to 5 in `GamePlay` but never read, so it is not modelled.
