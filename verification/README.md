# Tic-Tac-Toe game state, modelled in Dafny

The game is one Swing panel, `TicTacToe`. Its state is three fields:

- `tiles`, an array of nine integers in row-major order: `0` for an empty tile, `xValue = 10` for X, `oValue = 100` for O;
- `isXTurn`, true when X is to move;
- `gameOver`, the result code: `0` in progress, `1` draw, `10` X won, `100` O won.

`newGame`/`reset` clear the board and give X the first move. `isGameOver` scans the 8 lines (rows, columns, diagonals) in a fixed order and sums the three tiles of each. A sum of 30 means X won and a sum of 300 means O won. If no line wins, the result is a draw when no tile is empty, and otherwise the game is still in progress. The mouse handler turns a pixel into a tile index. While the game is in progress, a press on an empty tile places the mark of the player to move and passes the turn, and the result code is then recomputed. After a finished game, any press starts a new game.

The project has three modules:

- `Board` (`board.dfy`) holds the board as a value. `Outcome` mirrors the sum-based scan. `Judge` is an independent reference that compares marks for equality instead of summing. `Move` is one move on a value board. `Count` and `Balanced` track whose turn it is.
- `Layout` (`layout.dfy`) holds the pixel-to-tile arithmetic of the mouse handler: the handler's own mapping, and a corrected one.
- `Game` (`tictactoe.dfy`) holds the class `TicTacToe`, with the tiles in an `array<int>` and methods that update the fields in place. Each method is proved against the `Board` functions. The object invariant `Valid()` says four things:
  - every tile is 0, 10 or 100;
  - `gameOver` is the result code of the board;
  - X has as many tiles as O, or one more, and it is X's turn exactly when the counts are equal;
  - at most one player has three in a row.

  The constructor and `NewGame` establish `Valid()`; `ApplyMove` and `MousePressed` keep it, and `IsGameOver` changes nothing. `Reset` is only a step of `NewGame`, as `reset` is private to `newGame` in the source: on its own it empties the tiles without resetting `gameOver` or `isXTurn`. The method `Game.RepeatedPressIsIgnored` is a worked example of a client: it presses the centre tile twice on a new game and proves that the second press leaves the X there and O to move.

The tile encoding 0/10/100 and the result codes are kept as the source has them. An enumeration compared for equality would avoid the sum test; the model keeps the code's sums and proves them equivalent to such a comparison (`Board.OutcomeMatchesJudge`).

## Model

| member | source | states |
|---|---|---|
| `Board.LineOf` | src/TicTacToe.java:94-119 | the k-th line scanned is three distinct tile indices, each below 9 |
| `Board.ScanFrom` | src/TicTacToe.java:91-136 | scanning from line k on, the result is always 0, 1, 10 or 100, whatever integers the tiles hold |
| `Board.Outcome` | src/TicTacToe.java:89-137 | the board's result code is one of 0, 1, 10, 100 for any nine integers |
| `Board.SumTrick` | src/TicTacToe.java:121-125 | when each tile is 0, 10 or 100, a line sums to 30 iff all three are X, and to 300 iff all three are O |
| `Board.SumTrickNeedsMarks` | src/TicTacToe.java:121-122 | without that invariant the sum test misfires: tiles 0, 10, 20 on the first row give "X won" with no X in tile 0 |
| `Board.FirstWin` | src/TicTacToe.java:91-126 | the first line from k on that is three in a row of one mark; none is found exactly when no such line exists |
| `Board.ScanFromMatchesJudge` | src/TicTacToe.java:91-136 | from any line on, on a board of marks, the sum-based scan equals the equality-based reference |
| `Board.OutcomeMatchesJudge` | src/TicTacToe.java:89-137 | on a board of marks, the result code equals the reference judgement |
| `Board.OutcomeCases` | src/TicTacToe.java:89-137 | result 10 (100) iff the first line in scan order that is three in a row is X's (O's); result 1 iff no line is won and no tile is empty; result 0 iff no line is won and some tile is empty |
| `Board.OutcomeWithSingleWinner` | src/TicTacToe.java:91-126 | when at most one player has a line, the scan order does not matter: result 10 iff X has a line, 100 iff O has one |
| `Board.Move` | src/TicTacToe.java:60-67 | a move changes no tile but pos; an empty tile gets the mover's mark and the turn flips; an occupied tile leaves board and turn as they were |
| `Board.MovePreservesBalance` | src/TicTacToe.java:60-67 | a move keeps every tile a mark, keeps X's count equal to O's or one more, and keeps "X to move iff the counts are equal" |
| `Board.MoveKeepsSingleWinner` | src/TicTacToe.java:43-69 | a move made while the game is in progress cannot give the other player a line, so at most one player has three in a row afterwards |
| `Board.EmptyBoardStart` | src/TicTacToe.java:79-87 | the cleared board is well formed, in progress, balanced with X to move, and has no winner |
| `Board.ExampleOutcomes` | src/TicTacToe.java:89-137 | a top-row X line and a 0-4-8 diagonal X line give 10; a full board with no line gives 1 |
| `Layout.ClickPosAsWritten` | src/TicTacToe.java:47-58 | the handler's mapping accepts a press exactly when both grid-relative coordinates lie in 0..490 |
| `Layout.EdgeClicksEscape` | src/TicTacToe.java:51-58 | the handler maps a press on grid column 489 of row 0 to tile 3, though that pixel lies in no tile's square, and the bottom-right corner to index 12 |
| `Layout.AsWrittenEscapes` | src/TicTacToe.java:51-58 | for every press the handler accepts that lies in no tile's square, the index it computes is 3 or 6 (first tile of the next row) or 9 to 12 (past the last tile) |
| `Layout.ClickPos` | src/TicTacToe.java:47-58 | the corrected mapping returns a tile exactly when the press lies in that tile's drawn square, and nothing when it lies in none |
| `Layout.ClickPosAgreesInside` | src/TicTacToe.java:51-58 | wherever the corrected mapping accepts a press, the handler's mapping gives the same tile |
| `Layout.EveryTileReachable` | src/TicTacToe.java:55-58 | the top-left pixel of each tile's square maps to that tile |
| `Game.TicTacToe.constructor` | src/TicTacToe.java:23-77 | a new panel has an empty board, X to move, game in progress, and the invariant holds |
| `Game.TicTacToe.NewGame` | src/TicTacToe.java:79-83 | whatever the prior state, every tile is empty, X is to move, the game is in progress, and the invariant holds |
| `Game.TicTacToe.Reset` | src/TicTacToe.java:85-87 | every tile is empty afterwards |
| `Game.TicTacToe.IsGameOver` | src/TicTacToe.java:89-137 | the two loops with their early returns compute exactly `Outcome` of the tiles, and change nothing |
| `Game.TicTacToe.ApplyMove` | src/TicTacToe.java:60-69 | board and turn become `Move` of the old ones; `gameOver` is recomputed from the new board; on an occupied tile it keeps its old value; the invariant is kept |
| `Game.TicTacToe.MousePressed` | src/TicTacToe.java:41-73 | after a finished game a press starts a new game and places no mark; in progress, a press on a tile is `ApplyMove` there and a press outside every tile changes nothing; the invariant is kept |

## Left out

- Drawing (`paintComponent`, `drawGrid`, `drawMessage`, `drawCenteredString`), fonts, colours and window set-up (`main`, the frame, `setPreferredSize`, `setFont`): rendering through the windowing library, with no state of the game in it.
- Mouse-event dispatch, `repaint()` and the event thread: the handler is modelled as a method taking the press position as two integers.
- Game.TicTacToe.MousePressed: uses the corrected mapping `Layout.ClickPos`. It does not model the handler's own behaviour on the right and bottom pixel edges of the grid. There the handler marks the first tile of the next row, or throws an index-out-of-bounds error for indices 9 to 12. See Findings.
- Java's 32-bit `int` overflow in the line sums is not modelled: the invariant keeps every tile at 0, 10 or 100, so a sum never exceeds 300.

## Findings

| source | as written | input that shows it | evidently intended | confidence | as-written member | corrected member |
|---|---|---|---|---|---|---|
| src/TicTacToe.java:51 | the test `ex > gridSize` accepts grid-relative coordinates 489 and 490, but the three tiles of 490 / 3 = 163 pixels cover only 0..488, so the column or row computes to 3 | a press at panel pixel (519, 30) gives `clickPos` 3 and marks row 1, column 0; a press at (520, 520) gives `clickPos` 12 and indexes past the 9 tiles | accept a press only when `0 <= ex, ey < size * tileSize`, so the index is always the tile under the pointer, in 0..8 | high (not executed) | `Layout.EdgeClicksEscape` | `Layout.ClickPos` |
