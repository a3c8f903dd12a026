# A verified model of the 4x4 tic-tac-toe game engine

This project models `TicTacToeGame`, the game-state engine of a two-player tic-tac-toe
variant played on a fixed 4x4 board. The engine holds a two-dimensional integer board
(0 is an empty cell, 1 and 2 are the players' marks) and `currentPlayer`, the player to
move. It answers whether a cell is free, writes a move and passes the turn, checks for a
win or a draw, and resets to a fresh game with a random starting player.

The Dafny project has three modules:

- `Rules` (Rules.dfy): the rules as values. A `Board` is `seq<seq<int>>`. The ten lines
  are numbered in the order the end-of-game check examines them: row i is line 2i,
  column i is line 2i+1, then the main diagonal and the anti-diagonal. `FirstComplete`
  finds the first complete line in that order. `Evaluate` is the reference outcome
  (`Win(p)`, `Draw` or `Ongoing`). `Place` is one move and `NextPlayer` is the turn
  change. `CallbackReports` describes what the end-of-game dialog receives when each of its
  calls resets the game. Counting lemmas relate free cells to fullness.
- `Engine` (Engine.dfy): the class `TicTacToeGame`. It keeps the board in an
  `array2<int>` that `MakeMove` writes in place, and `currentPlayer` as a field. The
  constructor and `ResetGame` zero the board with nested loops. `CheckGameEnd` runs the
  row/column loop, the two diagonal tests and the fullness loop. Each method is proved
  against `Rules` through `Grid()`, the board read as a value.
- `Play` (Play.dfy): games as sequences of moves, each checked with `validMove` before
  `makeMove` as the board display does. It proves that the turn strictly alternates, that
  sixteen legal moves fill the board, and two concrete games: a win on row 0 and a draw.

Modelling decisions:

- The random starting player `random.nextInt(2) + 1` becomes a parameter `coin` in
  {0, 1}, and the player to move is `coin + 1`.
- `checkGameEnd` takes the user-interface object and calls `showEndGameDialog` for every
  complete line, and with 0 for a full board. That dialog resets the game
  (ui/GameBoardUI.java:173). So after the first call, every later test in the same scan sees
  an empty board. The model's `CheckGameEnd` returns an `Outcome` and stops at the first
  complete line. `Rules.CallbackReportsMatchOutcome` proves the dialog-driven scan
  makes exactly the one call that the returned outcome describes, or none.
- `makeMove` does not check that the cell is empty, and neither does the model's
  `MakeMove`: it overwrites whatever is there. Its only precondition is an in-range cell.
  The game's display checks `validMove` before every `makeMove`
  (ui/GameBoardUI.java:108-109), and `Play.Legal` states that protocol.
- Out-of-range indices raise `ArrayIndexOutOfBoundsException` in Java. Here they are
  excluded by `requires InRange(row, column)` on `ValidMove` and `MakeMove`.
- `updatePlayer` leaves any value other than 1 or 2 unchanged, and so does `NextPlayer`.
  Under the class invariant `Valid()`, that case does not arise.

## Model

| member | source | states |
|---|---|---|
| `Engine.TicTacToeGame.constructor` | tictactoe_project/src/main/java/ca/cmpt213/asn4/tictactoe/game/TicTacToeGame.java:18-28 | a new game has a fresh 4x4 board with every cell 0, and player `coin + 1` (1 or 2) to move: the state `Play.Start(coin)` |
| `Engine.NewEmptyBoard` | tictactoe_project/src/main/java/ca/cmpt213/asn4/tictactoe/game/TicTacToeGame.java:20-27 | the nested loops leave a fresh 4x4 array with every cell 0 |
| `Engine.TicTacToeGame.GetBoardSize` | tictactoe_project/src/main/java/ca/cmpt213/asn4/tictactoe/game/TicTacToeGame.java:34-36 | the reported size is both dimensions of the board |
| `Engine.TicTacToeGame.GetCurrentPlayer` | tictactoe_project/src/main/java/ca/cmpt213/asn4/tictactoe/game/TicTacToeGame.java:42-44 | returns the player to move, always 1 or 2 |
| `Engine.TicTacToeGame.ValidMove` | tictactoe_project/src/main/java/ca/cmpt213/asn4/tictactoe/game/TicTacToeGame.java:52-54 | true exactly when the in-range cell is empty |
| `Engine.TicTacToeGame.MakeMove` | tictactoe_project/src/main/java/ca/cmpt213/asn4/tictactoe/game/TicTacToeGame.java:62-67 | the same 4x4 array gets the old player's mark at (row, column) and nothing else changes; returns that player, the turn passes to the other player, the cell is no longer a valid move, and other cells' validity is unchanged; the new state is `Play.Step` of the old one |
| `Engine.TicTacToeGame.UpdatePlayer` | tictactoe_project/src/main/java/ca/cmpt213/asn4/tictactoe/game/TicTacToeGame.java:69-75 | the player to move becomes `NextPlayer` of the old one |
| `Rules.NextPlayer` | tictactoe_project/src/main/java/ca/cmpt213/asn4/tictactoe/game/TicTacToeGame.java:69-75 | 1 and 2 swap, so the result is 3 minus the mover and is 1 or 2; any other value is kept |
| `Engine.TicTacToeGame.CheckGameEnd` | tictactoe_project/src/main/java/ca/cmpt213/asn4/tictactoe/game/TicTacToeGame.java:81-113 | the scan returns exactly `Evaluate` of the board: the first complete line's mark in scan order, else a draw on a full board, else nothing |
| `Engine.TicTacToeGame.LineCells` | tictactoe_project/src/main/java/ca/cmpt213/asn4/tictactoe/game/TicTacToeGame.java:84-96 | the four cells passed to each `checkRowCol` call are exactly row i, column i and the two diagonals of the board |
| `Engine.TicTacToeGame.RowColumnRound` | tictactoe_project/src/main/java/ca/cmpt213/asn4/tictactoe/game/TicTacToeGame.java:83-90 | in round i of the loop, a complete row i wins with `board[i][0]`; otherwise a complete column i wins with `board[0][i]`; otherwise the scan goes on with no complete row or column up to i |
| `Engine.TicTacToeGame.DiagonalRound` | tictactoe_project/src/main/java/ca/cmpt213/asn4/tictactoe/game/TicTacToeGame.java:93-112 | after the loop, the main diagonal wins with `board[0][0]`, else the anti-diagonal with `board[0][3]`, else fullness decides between draw and nothing |
| `Engine.TicTacToeGame.BoardFull` | tictactoe_project/src/main/java/ca/cmpt213/asn4/tictactoe/game/TicTacToeGame.java:100-108 | the flag stays true exactly when no cell of the board is 0 |
| `Engine.TicTacToeGame.ResetGame` | tictactoe_project/src/main/java/ca/cmpt213/asn4/tictactoe/game/TicTacToeGame.java:122-132 | the same state as construction: a fresh all-zero 4x4 board and player `coin + 1` to move |
| `Rules.CheckRowCol` | tictactoe_project/src/main/java/ca/cmpt213/asn4/tictactoe/game/TicTacToeGame.java:115-117 | true exactly when the four cells form a complete line: all equal and not 0 |
| `Rules.Line` | tictactoe_project/src/main/java/ca/cmpt213/asn4/tictactoe/game/TicTacToeGame.java:84-96 | each of the ten lines the check tests is four cells long: row i, column i, then the two diagonals |
| `Rules.FirstComplete` | tictactoe_project/src/main/java/ca/cmpt213/asn4/tictactoe/game/TicTacToeGame.java:83-98 | the result is the first complete line at index k or later in scan order, or none exactly when no such line is complete |
| `Rules.Evaluate` | tictactoe_project/src/main/java/ca/cmpt213/asn4/tictactoe/game/TicTacToeGame.java:81-113 | the reference outcome the end-of-game check is proved to return; its meaning, in terms of complete lines and fullness alone, is stated by `Rules.EvaluateSpec` |
| `Rules.EvaluateSpec` | tictactoe_project/src/main/java/ca/cmpt213/asn4/tictactoe/game/TicTacToeGame.java:81-113 | a win exactly when some line is complete, by the mark of the first one in scan order, which is a player; a draw exactly when no line is complete and the board is full; `Ongoing` exactly when no line is complete and a cell is free |
| `Rules.FirstCompleteLineWins` | tictactoe_project/src/main/java/ca/cmpt213/asn4/tictactoe/game/TicTacToeGame.java:83-98 | the first complete line decides the winner, whatever later lines hold, so a win pre-empts a draw |
| `Rules.RowWins` | tictactoe_project/src/main/java/ca/cmpt213/asn4/tictactoe/game/TicTacToeGame.java:84-86 | a complete row i, with no earlier complete row or column, wins with its first cell |
| `Rules.ColumnWins` | tictactoe_project/src/main/java/ca/cmpt213/asn4/tictactoe/game/TicTacToeGame.java:87-89 | a complete column i, with row i and all earlier rows and columns incomplete, wins with its top cell |
| `Rules.MainDiagonalWins` | tictactoe_project/src/main/java/ca/cmpt213/asn4/tictactoe/game/TicTacToeGame.java:93-95 | the main diagonal wins with `b[0][0]` when no row or column is complete |
| `Rules.AntiDiagonalWins` | tictactoe_project/src/main/java/ca/cmpt213/asn4/tictactoe/game/TicTacToeGame.java:96-98 | the anti-diagonal wins with `b[0][3]` when no other line is complete |
| `Rules.NoLineWins` | tictactoe_project/src/main/java/ca/cmpt213/asn4/tictactoe/game/TicTacToeGame.java:100-112 | with no complete line, the outcome is a draw on a full board and `Ongoing` otherwise |
| `Rules.EmptyBoardOngoing` | tictactoe_project/src/main/java/ca/cmpt213/asn4/tictactoe/game/TicTacToeGame.java:122-132 | on the board left by construction or reset, the check reports nothing |
| `Rules.CallbackReports` | tictactoe_project/src/main/java/ca/cmpt213/asn4/tictactoe/game/TicTacToeGame.java:81-113 | the dialog arguments of the scan as written: one call per complete line, each resetting the board (ui/GameBoardUI.java:173), then 0 on a full board; `Rules.CallbackReportsMatchOutcome` proves it is at most one call |
| `Rules.EmptyBoardReportsNothing` | tictactoe_project/src/main/java/ca/cmpt213/asn4/tictactoe/ui/GameBoardUI.java:173 | once the dialog has reset the game, the rest of the scan makes no further call |
| `Rules.CallbackReportsAtComplete` | tictactoe_project/src/main/java/ca/cmpt213/asn4/tictactoe/game/TicTacToeGame.java:84-98 | a complete line reached by the scan is reported once, with its mark, and nothing after it |
| `Rules.CallbackReportsFrom` | tictactoe_project/src/main/java/ca/cmpt213/asn4/tictactoe/game/TicTacToeGame.java:81-113 | the dialog calls from line k on are the first complete line's mark, else 0 on a full board, else none |
| `Rules.CallbackReportsMatchOutcome` | tictactoe_project/src/main/java/ca/cmpt213/asn4/tictactoe/game/TicTacToeGame.java:81-113 | the dialog-driven scan makes at most one call, and it is exactly the report of `Evaluate`: the winner, or 0 for a draw |
| `Rules.Place` | tictactoe_project/src/main/java/ca/cmpt213/asn4/tictactoe/game/TicTacToeGame.java:64 | a move changes exactly one cell, to the mover's mark |
| `Rules.PlaceKeepsValid` | tictactoe_project/src/main/java/ca/cmpt213/asn4/tictactoe/game/TicTacToeGame.java:62-67 | writing a player's mark keeps every cell 0, 1 or 2 |
| `Rules.PlaceLine` | tictactoe_project/src/main/java/ca/cmpt213/asn4/tictactoe/game/TicTacToeGame.java:64 | after a move, every cell of every line is its old value or the mover's mark |
| `Rules.WinnerIsMover` | tictactoe_project/src/main/java/ca/cmpt213/asn4/tictactoe/game/TicTacToeGame.java:62-98 | if no line was complete before a move, any win found after it is the mover's |
| `Rules.PlaceCountsDown` | tictactoe_project/src/main/java/ca/cmpt213/asn4/tictactoe/game/TicTacToeGame.java:64 | a move onto an empty cell takes away exactly one free cell |
| `Rules.FullIffNoneEmpty` | tictactoe_project/src/main/java/ca/cmpt213/asn4/tictactoe/game/TicTacToeGame.java:100-108 | the board is full exactly when it has no free cell |
| `Rules.EmptyBoardCount` | tictactoe_project/src/main/java/ca/cmpt213/asn4/tictactoe/game/TicTacToeGame.java:20-27 | a fresh board has sixteen free cells |
| `Play.StepKeepsValid` | tictactoe_project/src/main/java/ca/cmpt213/asn4/tictactoe/game/TicTacToeGame.java:62-75 | a move keeps cells in {0, 1, 2} and the player to move in {1, 2}, and the player to move changes |
| `Play.Start` | tictactoe_project/src/main/java/ca/cmpt213/asn4/tictactoe/game/TicTacToeGame.java:18-28 | the state after construction is valid: an empty board and player `coin + 1` to move; `Engine.TicTacToeGame.constructor` is proved to reach it |
| `Play.Step` | tictactoe_project/src/main/java/ca/cmpt213/asn4/tictactoe/game/TicTacToeGame.java:62-75 | one move on values keeps the board 4x4: the mover's mark written, the turn passed; `Engine.TicTacToeGame.MakeMove` is proved to take the engine from one state to its `Step` |
| `Play.Legal` | tictactoe_project/src/main/java/ca/cmpt213/asn4/tictactoe/ui/GameBoardUI.java:108-109 | a sequence of moves the display lets through: each on the board and on a cell that is empty when it is made |
| `Play.RunCountsDown` | tictactoe_project/src/main/java/ca/cmpt213/asn4/tictactoe/ui/GameBoardUI.java:108-109 | a game of n legal moves leaves exactly n fewer free cells and a valid state |
| `Play.RunAlternates` | tictactoe_project/src/main/java/ca/cmpt213/asn4/tictactoe/game/TicTacToeGame.java:69-75 | after an even number of moves the starting player is to move, after an odd number the other one |
| `Play.GameLength` | tictactoe_project/src/main/java/ca/cmpt213/asn4/tictactoe/ui/GameBoardUI.java:108-109 | no game from a fresh start has more than sixteen legal moves |
| `Play.SixteenMovesEnd` | tictactoe_project/src/main/java/ca/cmpt213/asn4/tictactoe/game/TicTacToeGame.java:100-112 | after sixteen legal moves the board is full, the check reports a win or a draw, and a draw when no line is complete |
| `Play.RunAppend` | tictactoe_project/src/main/java/ca/cmpt213/asn4/tictactoe/ui/GameBoardUI.java:108-109 | playing two move sequences in turn is playing their concatenation, with the same legality |
| `Play.Extend` | tictactoe_project/src/main/java/ca/cmpt213/asn4/tictactoe/ui/GameBoardUI.java:108-109 | one more move on a free cell keeps a game legal and applies one step |
| `Play.RowZeroScenario` | tictactoe_project/src/main/java/ca/cmpt213/asn4/tictactoe/game/TicTacToeGame.java:83-86 | player 1 filling row 0 while player 2 plays row 1 leaves a game in progress, until (0, 3) is filled and player 1 wins |
| `Play.DrawBoardIsDraw` | tictactoe_project/src/main/java/ca/cmpt213/asn4/tictactoe/game/TicTacToeGame.java:100-112 | the concrete full board `DrawBoard` has no complete line and is a draw |
| `Play.DrawScenario` | tictactoe_project/src/main/java/ca/cmpt213/asn4/tictactoe/game/TicTacToeGame.java:81-112 | a concrete sequence of sixteen legal alternating moves ends in a draw |

## Left out

- The JavaFX display (ui/GameBoardUI.java): images, mouse handlers and alert dialogs. It is
  not modelled. Only its protocol is kept: `validMove` before `makeMove`, and a reset after
  every end-of-game dialog.
- The application bootstrap and the new-game button (ui/TicTac.java). They contain no game
  logic.
- `java.util.Random`: the random draw is an argument `coin` in {0, 1}. The model says
  nothing about its distribution.
- The `GameBoardUI` argument of `checkGameEnd`: `CheckGameEnd` returns an `Outcome`
  instead. The effect of the dialog's reset on the rest of the scan is modelled by
  `Rules.CallbackReports`, not inside the method. The reset's new random starting player
  is not modelled there.
- Java's `ArrayIndexOutOfBoundsException` for bad indices: it is a precondition instead.
- Java's `int[][]` is an array of row arrays that could in principle be aliased or jagged.
  The model uses one `array2<int>` of fixed shape 4x4.
- `Play.Legal` does not run the end-of-game check after each move (ui/GameBoardUI.java:117)
  or reset after a win (ui/GameBoardUI.java:173), so a sequence may go on past a complete
  line. The games the program plays are a subset, so every `Play` lemma still covers them.
