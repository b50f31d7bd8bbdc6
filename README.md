# Minesweeper game engine

This is a Dafny model of the game-state engine of a single-screen Minesweeper app for Android.
The engine lives inside the `MinesweeperScreen` composable. It remembers three variables:

- the mine locations (`bombLocations`);
- the revealed buttons (`revealedButtons`);
- the game status, which is `"Playing"`, `"Lost"` or `"Won"`.

Two constants go with them: a grid of 9 cells and 2 mines.
`resetGame` draws a fresh mine set, clears the revealed set and sets the status back to playing.
Each button's click handler reveals a cell:

- a click on a mine loses the game;
- revealing the last safe cell wins it;
- a click after the game is over, or on a cell that is already revealed, is ignored.

The grid draws each button from three facts: whether the cell is revealed, whether it is a mine and whether the game is over.
From them it chooses an appearance and an emoji, and it enables the button only while that button is hidden and the game is still being played.

The project has three modules:

- `Game` (`game.dfy`) holds the state as a value (`State`), the reveal transition `Step`, a fold of clicks `Run`, and the mine draw `Draw`.
  It also holds the invariant `Reachable` that every reachable state has, and lemmas about all of these.
  The invariant says:
  - mines and revealed cells lie on the board;
  - there are exactly two mines;
  - at most one mine is revealed;
  - the status is the one the revealed cells dictate (`Verdict`).
- `Grid` (`grid.dfy`) holds the button appearance (`CellView`), its emoji (`Label`) and the enabled predicate (`Enabled`).
  Its lemmas tie them to the game state.
- `Screen` (`screen.dfy`) holds the class `Minesweeper`.
  Its fields `mines`, `revealed` and `status` are reassigned in place by `Reset` and `Click`, the way the composable reassigns its remembered variables.
  Each method is proved against the value-level functions of `Game`, and each keeps `Valid()`, which is `Reachable` of the current values.

The board's indices, `(0 until gridSize).toSet()`, are `Cells()`.
`Cells()` lists the nine indices outright, and its contract ties them to `GridSize`.

The shuffle is not modelled.
The ordering that `(0 until gridSize).shuffled()` returns is a parameter, `shuffled`, and the model asks only that it be some ordering of the nine cells.
`Draw` then takes its first two cells as a set, as `take(bombCount).toSet()` does.
`Draw`'s contract says the result is always two cells of the board.
`DrawCovers` says every such pair can come out of some shuffle.

Three points about the intended behaviour are settled by the code, and the model follows the code.

- A more general engine would take the grid size and mine count as arguments of reset, rejecting a bad configuration, and would reject an out-of-range index on reveal.
  The code has fixed constants (9 cells, 2 mines) and no error paths.
  So the model has no error results. `Click` instead requires an index on the board, because buttons are only created for `0 until gridSize`.
  `Step` itself accepts any integer, as the handler does.
- A game is meant to be won when the revealed set *equals* the complement of the mines.
  The code tests `newRevealed.containsAll(nonBombCells)`, and `Step` uses that containment.
  `RevealedMines` proves that, in a reachable state, Won holds exactly when the revealed set equals the safe cells, so the two readings agree.
- Reset could in principle happen at any time. In the code, `resetGame` runs once when the screen is first composed (the constructor models this).
  After that it runs only from the "Play Again" button, which is shown only once the game is lost or won.
  `Reset` has no precondition on the status, because `resetGame` itself has none.

## Model

| member | source | states |
|---|---|---|
| `Game.Cells` | app/src/main/java/com/example/miner/MainActivity.kt:99 | `(0 until gridSize).toSet()`, the board's indices, contains exactly the integers from 0 up to but excluding 9 |
| `Game.Draw` | app/src/main/java/com/example/miner/MainActivity.kt:59-63 | whatever ordering of the board the shuffle returns, taking its first two cells as a set gives exactly two distinct mines, all on the board |
| `Game.DrawCovers` | app/src/main/java/com/example/miner/MainActivity.kt:63 | conversely, every set of two board cells is the draw of some shuffle, so no mine layout is excluded |
| `Game.FreshIsReachable` | app/src/main/java/com/example/miner/MainActivity.kt:62-66 | the state after a reset (fresh mines, nothing revealed, playing) satisfies the invariant, and at least one safe cell remains to be revealed |
| `Screen.Minesweeper.constructor` | app/src/main/java/com/example/miner/MainActivity.kt:56-70 | after creation, which includes the first-composition reset, the mines are the draw, nothing is revealed, the status is Playing, and the invariant holds |
| `Screen.Minesweeper.Reset` | app/src/main/java/com/example/miner/MainActivity.kt:62-66 | after a reset the mines are the draw (two cells of the board), the revealed set is empty, the status is Playing, and the invariant holds |
| `Screen.Minesweeper.Click` | app/src/main/java/com/example/miner/MainActivity.kt:90-105 | the new state is `Step` of the old one. A click on a finished game or on a revealed cell changes nothing. Otherwise the index joins the revealed set, a mine sets Lost, and a safe cell sets Won exactly when every safe cell is revealed (else the status stays Playing). The mines never change, and the invariant is kept |
| `Game.Step` | app/src/main/java/com/example/miner/MainActivity.kt:90-105 | one click never moves the mines, and it reveals at most the clicked index, hiding nothing. A finished game is left as it is. A click that newly loses was on a mine, and one that newly wins was on a safe cell. Its other properties are in StepPreservesReachable, RunFrozen, RunMonotone, MineLoses and SafeClicksWin |
| `Game.StepPreservesReachable` | app/src/main/java/com/example/miner/MainActivity.kt:91-102 | a click on any board index (buttons come from `items(gridSize)`, line 143) takes a reachable state to a reachable one |
| `Game.RunPreservesReachable` | app/src/main/java/com/example/miner/MainActivity.kt:90-105 | any sequence of clicks on board indices keeps the invariant |
| `Game.RevealedMines` | app/src/main/java/com/example/miner/MainActivity.kt:91-102 | in a reachable state no mine is revealed while playing or after a win, exactly one is revealed after a loss, and the status is Won exactly when every safe cell is revealed and no mine is, that is, exactly when the revealed set equals the safe cells |
| `Game.RunMonotone` | app/src/main/java/com/example/miner/MainActivity.kt:90-105 | clicks never change the mine set, never remove a revealed cell, and reveal nothing except the clicked indices |
| `Game.RunFrozen` | app/src/main/java/com/example/miner/MainActivity.kt:91 | once the game is Lost or Won, every sequence of clicks leaves mines, revealed set and status unchanged |
| `Game.StepIdempotent` | app/src/main/java/com/example/miner/MainActivity.kt:91-92 | clicking the same index twice in a row has the same effect as clicking it once |
| `Game.MineLoses` | app/src/main/java/com/example/miner/MainActivity.kt:93-95 | in a game being played, clicking a mine loses at once, and that mine is then the only revealed mine |
| `Game.SafeClicksWin` | app/src/main/java/com/example/miner/MainActivity.kt:96-102 | clicking only safe cells that, together with those already revealed, cover every safe cell wins any game not lost, whatever the order and however often a cell is repeated |
| `Game.ScenarioLoss` | app/src/main/java/com/example/miner/MainActivity.kt:90-105 | with mines {2, 5}: revealing 0 and 1 keeps playing, then revealing 2 loses with {0, 1, 2} revealed, and a further click on 3 changes nothing |
| `Game.ScenarioWin` | app/src/main/java/com/example/miner/MainActivity.kt:96-102 | with mines {2, 5}: clicks that cover the seven safe cells, and touch nothing else, win in any order |
| `Grid.CellView` | app/src/main/java/com/example/miner/MainActivity.kt:154-169 | a button shows its content exactly when it is revealed, shows a bomb exactly when it is a mine that is revealed or whose game is over, and is plainly hidden exactly when it is unrevealed during play |
| `Grid.Label` | app/src/main/java/com/example/miner/MainActivity.kt:157-167 | the text is a bomb exactly on a revealed mine or a mine shown after the end, a diamond exactly on a revealed safe cell, and empty on every hidden button (see also LabelMeaning) |
| `Grid.Enabled` | app/src/main/java/com/example/miner/MainActivity.kt:174 | a button is enabled exactly when it is drawn plainly hidden, whether or not it is a mine. EnabledIffClickTakesEffect shows that it is enabled exactly when a click changes the game |
| `Grid.LabelMeaning` | app/src/main/java/com/example/miner/MainActivity.kt:154-169 | the emoji is a bomb exactly on a mine that is revealed or whose game is over, a diamond exactly on a revealed safe cell, and empty otherwise |
| `Grid.EnabledIffClickTakesEffect` | app/src/main/java/com/example/miner/MainActivity.kt:174 | a button is enabled exactly when clicking it changes the game, so disabled buttons (revealed cells, finished games) can never matter to the handler at line 91 |
| `Grid.NoBombWhilePlaying` | app/src/main/java/com/example/miner/MainActivity.kt:144-169 | in a reachable state being played, every button is hidden or a revealed diamond: no mine is ever shown during play |
| `Grid.LostView` | app/src/main/java/com/example/miner/MainActivity.kt:156-162 | after a loss every mine shows a bomb, and exactly one button, a mine (the one clicked), is drawn as a revealed bomb |
| `Grid.WonView` | app/src/main/java/com/example/miner/MainActivity.kt:156-164 | after a win every safe button shows a revealed diamond, and every mine is shown as an unrevealed bomb |

## Left out

- The shuffle's randomness and uniformity (`shuffled()` from the Kotlin standard library). The ordering it returns is a parameter of `Reset`, constrained only to be an ordering of the nine cells.
- The Jetpack Compose layer: `MainActivity.onCreate`, the surface, column and grid layout, `GameStatusText`, `PlayAgainButton` and `DefaultPreview`. This is rendering code. The model does not capture that "Play Again" is offered only after a loss or a win.
- Colours, alpha values, sizes and fonts of the buttons. `CellView` keeps only the kind of appearance and `Label` only the emoji.
- The recomposition semantics of `remember`, `mutableStateOf` and `LaunchedEffect`. The remembered variables are treated as fields assigned one after the other, and the one-time `LaunchedEffect` reset becomes part of the constructor.
- Status strings. `"Playing"`, `"Lost"` and `"Won"` become the datatype `Status`. The code compares only these three literals.
- `Screen.Minesweeper.Click` requires an index in `0 until 9`. The handler itself accepts any integer, but it is only ever called with the index of a button created by `items(gridSize)`. `Game.Step` models the handler on every integer.
