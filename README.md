# Tic-tac-toe game engine

A Dafny model of the game engine inside the `App` component of a React
tic-tac-toe game (`src/App.js`), with the rendering taken away. The engine
keeps a board of nine cells, each null, "X" or "O"; a flag `isXNext` for
whose turn it is; the scores of X and O; and a flag for playing against the
computer. The model covers these pieces:

- `calculateWinner`, which scans a fixed table of eight lines in order.
- `handleClick`, which ignores a click on a taken cell or after a win.
  Otherwise it writes the current mark into a copy of the board and flips the
  turn. In computer mode it then puts an "O" on a random null cell.
- `getComputerMove`, which lists the null cells and picks one with `Math.random`.
- `getStatus`, the status message.
- The effect that adds one to the winner's score.
- `resetGame`, `resetScores` and the mode toggle.

Files:

- `tictactoe.dfy` (module `TicTacToe`) holds the pure part. It has the cells,
  the line table, the winner as a function (`Winner`) and as the source's loop
  over an array (`CalculateWinner`), the list of null cells, the computer's
  choice, and the status text. `AfterClick` gives the board and turn after one
  click. `Tally` gives the scores after the effect runs.
- `properties.dfy` (module `GameProperties`) holds the lemmas about them.
- `app.dfy` (module `Game`) holds the class `App`. Its fields are the
  component's state: `board` is a 9-element array, and `HandleClick` replaces
  it with an updated copy, as the source does with `[...board]`. Each handler is
  proved against the pure functions. `Play` runs any sequence of clicks, and two
  client methods replay a short game.

The model follows the code as written. Three points need spelling out; in the
first two the code does less than its own comments say:

- The comment on src/App.js:29 says the computer moves when "it's the
  computer's turn", and the one on line 23 says play stops after a win. But the
  guard `!winner` on the reply (line 30) reads the winner of the board from
  before the click. Line 23 has already returned when that winner is non-null,
  so the guard is always true. The computer therefore replies even when the
  human's move has just won, as long as a null cell remains.
  `ReplyAfterWinningMove` shows a board where this reply also completes a row
  of "O"s. The first line in the table still makes X the winner.
- The code never checks that it is the computer's turn. The computer always
  writes "O" and gives the move to X, whatever `isXNext` was
  (src/App.js:33-35). A game switched to the computer while O is to move gets
  two "O"s in a row, and O ends one mark ahead of X (`ReplyToOUnbalances`).
  Otherwise every click keeps X either level with O (X to move) or one mark
  ahead (O to move) (`ClickKeepsBalance`).
- No "already scored" flag exists. The effect (src/App.js:12-19) runs when
  React finds that `winner` differs from its value at the previous render.
  The model keeps that remembered value in the field `effectWinner`. Between
  handlers React has settled: `effectWinner` is the winner of the current
  board (`Settled`). Clicks on a won board are ignored, so the winner and the
  score stay put until a new game (`WonGameIsFrozen`). A game is therefore
  scored once (`GameScoredOnce`). A new game makes the winner null, and the
  effect records that without scoring (`NewGame`).

## Model

| member | source | states |
|---|---|---|
| `TicTacToe.Mark` | src/App.js:25 | the mark written is non-null, and it is "X" exactly when `isXNext` |
| `TicTacToe.WinnerFrom` | src/App.js:128-134 | the scan from line `k` returns null exactly when no later line is complete; otherwise it returns the mark of a complete line |
| `TicTacToe.Winner` | src/App.js:116-135 | the winner is null exactly when none of the 8 lines is complete; otherwise it is the mark of the first complete line in table order |
| `TicTacToe.CalculateWinner` | src/App.js:116-135 | the loop over the line table returns the same mark as `Winner` on the array's contents |
| `GameProperties.FirstLineDecides` | src/App.js:128-133 | a complete line with no complete line before it decides the winner, even if later lines hold the other mark |
| `GameProperties.WinnerIsFirstCompleteLine` | src/App.js:117-134 | the winner is mark `m` if and only if the first complete line in table order is a line of `m` |
| `GameProperties.GridLineInTable` | src/App.js:117-126 | three marks `m` in a row, a column or a diagonal of the grid complete a line of the table |
| `GameProperties.TableLineOnGrid` | src/App.js:117-126 | every complete line of the table is three of its mark in a row, a column or a diagonal of the grid |
| `GameProperties.LinesAreGridLines` | src/App.js:117-126 | a line of the table is complete with `m` exactly when a row, column or diagonal of the 3x3 grid is filled with `m` |
| `GameProperties.WinnerOnGrid` | src/App.js:116-135 | there is a winner exactly when X or O has three in a row on the grid; the winner has three in a row; a mark that alone has three in a row is the winner |
| `GameProperties.DrawScenario` | src/App.js:61-69 | the full board X O X / O X O / O X O has no winner, and its status is "It's a draw!" |
| `TicTacToe.EmptyCellsFrom` | src/App.js:73-75 | the list holds exactly the null cells from position `i` on, in increasing order |
| `TicTacToe.EmptyCells` | src/App.js:73-75 | an index is in the list if and only if its cell is null; the list is increasing |
| `TicTacToe.Scale` | src/App.js:76 | `Math.floor(random * n)` is below `n` when `random` is in [0, 1) |
| `TicTacToe.ComputerMove` | src/App.js:72-78 | when a null cell exists, the index chosen is in 0..8 and its cell is null |
| `GameProperties.ScaleHits` | src/App.js:76 | every position `k < n` is the floor of `random * n` for some `random` in [0, 1) |
| `GameProperties.ComputerMoveReachesEveryEmptyCell` | src/App.js:72-78 | every null cell is the computer's choice for some value of `Math.random()` |
| `GameProperties.ComputerMoveAtZero` | src/App.js:73-77 | a draw of 0 picks the lowest null cell |
| `GameProperties.IgnoredClick` | src/App.js:23 | a click on a non-null cell, or while the board has a winner, changes neither board nor turn |
| `GameProperties.ClickNeverOverwrites` | src/App.js:22-38 | every non-null cell keeps its mark across a click |
| `GameProperties.HumanMove` | src/App.js:24-27 | against a human, an accepted click writes the current mark into the clicked null cell, changes no other cell and flips the turn |
| `GameProperties.ComputerReply` | src/App.js:30-36 | against the computer, an accepted click that leaves a null cell changes one more cell, different from the clicked one. That cell was null and now holds "O". All other cells are unchanged, and X is to move |
| `GameProperties.NoReplyOnFullBoard` | src/App.js:30 | against the computer, a click that fills the last null cell gets no reply and flips the turn |
| `GameProperties.ReplyAfterWinningMove` | src/App.js:23-36 | the computer replies even after the human's move has completed a line; the winner is still the first complete line in table order |
| `GameProperties.ClickKeepsBalance` | src/App.js:22-37 | when X has played as often as O (X to move) or once more (O to move), a click keeps it so, unless the computer plays while O is to move |
| `GameProperties.ReplyToOUnbalances` | src/App.js:30-36 | against the computer with O to move, an accepted click that leaves a null cell ends with X to move and one more "O" than "X" |
| `GameProperties.StatusMeaning` | src/App.js:61-69 | the message is "Winner: m" exactly when the winner is m; otherwise "It's a draw!" exactly when the board is full; otherwise "Next player: X" or "O" as `isXNext` says |
| `TicTacToe.Tally` | src/App.js:12-19 | when the winner is a mark that differs from the one last seen, that mark's score goes up by exactly 1 and the other score is unchanged. Otherwise no score changes |
| `GameProperties.TallyOnce` | src/App.js:12-19 | running the effect again on the same winner adds nothing |
| `GameProperties.WonGameIsFrozen` | src/App.js:12-38 | once the board has a winner, any run of clicks, each followed by the effect, leaves board, turn and scores as they were |
| `GameProperties.GameScoredOnce` | src/App.js:12-38 | from a board without a winner, any run of clicks adds exactly one to the score of the winner it ends with and nothing else; with no winner no score changes |
| `Game.App.constructor` | src/App.js:5-19 | the game starts with 9 null cells, X to move, scores 0 and 0, against a human, and settled: the effect has seen the null winner |
| `Game.App.HandleClick` | src/App.js:22-38 | board and turn become what `AfterClick` gives. Scores and mode are unchanged. An accepted click installs a fresh array and leaves the old one untouched |
| `Game.App.WinnerEffect` | src/App.js:12-19 | the effect records the current winner, and the scores become `Tally` of the winner it last saw, the current winner and the old scores |
| `Game.App.Click` | src/App.js:12-38 | a click and the effect that follows it: board and turn as `AfterClick` gives, and the state is settled afterwards. From a settled state the scores are `Tally` of the winner before and after the click; an ignored click changes neither board, turn nor scores |
| `Game.App.ResetGame` | src/App.js:41-44 | the board becomes 9 null cells and X is to move; scores and mode are unchanged |
| `Game.App.NewGame` | src/App.js:12-44 | the reset and the effect that follows it: 9 null cells, X to move, scores unchanged, and settled with no winner seen |
| `Game.App.Play` | src/App.js:12-38 | a run of clicks, each followed by the effect, from a settled state ends in the board, turn and scores `Replay` gives |
| `Game.App.ResetScores` | src/App.js:47-49 | both scores become 0; board, turn and mode are unchanged |
| `Game.App.ToggleMode` | src/App.js:106 | the mode flips; board, turn and scores are unchanged |
| `Game.App.GetStatus` | src/App.js:61-69 | the message returned is `Status` of the current board and turn |

## Left out

- Rendering: the JSX, `renderCell`, the CSS import and the buttons (src/App.js:1-2, 51-58, 80-112). They are presentation only.
- React's scheduling: `useState` setters, batching and the second `setBoard` call (src/App.js:26, 34). A click is one atomic move to the state React settles on. The effect is a separate method, `WinnerEffect`, that a caller runs after each change. `Click` and `NewGame` compose a handler with it. `ResetScores` and `ToggleMode` do not change the board, so React does not re-run the effect after them.
- `Math.random` is a parameter `random` with 0 <= `random` < 1. Its distribution is not modelled. The model uses `random` only when the computer moves.
- Indices outside 0..8 are excluded by the type `Index`, because the rendered grid only produces 0..8 (src/App.js:89-95).
- `TicTacToe.ComputerMove` requires a null cell. `handleClick` only calls `getComputerMove` after `newBoard.includes(null)`. On a full board the source would index an empty list.
- `Game.App.HandleClick` does not model the check `computerMove !== -1` (src/App.js:32) as a branch. The chosen index is always in 0..8, so the check always passes.
- Integer widths play no part: scores are unbounded naturals.
