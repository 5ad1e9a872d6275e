# BrackixOS game engines in Dafny

BrackixOS is a desktop shell written with Qt. Its game centre has a game
engine behind each window. This project models six of them in `brackixos.py`
and proves properties of the model:

- the falling-block game (`TetrisGame`), in `tetris.dfy`;
- the snake (`SnakeGame`), in `snake.dfy`;
- the tile-merging puzzle (`Game2048`), in `game2048.dfy`;
- the memory card game (`MemoryMatchGame`), in `memory_match.dfy`;
- noughts and crosses (`TicTacToeGame`), in `tictactoe.dfy`;
- the number guessing game (`NumberGuessGame`), in `number_guess.dfy`.

Each engine is one module with one class. The class fields are the
engine's own fields. Each method does what the Python method does to them.
Board lists that the source rewrites row by row are `seq` fields that the
methods reassign. The read-only routines are functions: `check_collision`, `compress`,
`merge`'s pass, `check_game_over`, `check_winner`, `check_draw`, and the
rotation, reversal and transpose comprehensions. The contracts of
`check_collision`, `check_game_over`, `check_winner`, `check_draw` and the
2048 empty-cell list state what they compute without reference to their
loops. The other functions state invariants they keep: length, tiles and
sum. Their meaning is stated by partner lemmas: the clockwise turn, the
cell-by-cell merge, and twice-applied identities.

Every random draw is an argument of the method that needs it:

- the Tetris shape index;
- the stream of cells that `spawn_food` draws from;
- the index into the 2048 empty-cell list, and the tile value;
- the shuffled memory deck;
- the secret number.

Preconditions keep each draw within the range the source's random call can
produce. They do not model the probabilities.

## Model

| member | source | states |
|---|---|---|
| Tetris.EmptyGrid | brackixos.py:1554 | the start board has 20 rows of 10 cells, all empty |
| Tetris.Collides | brackixos.py:1640-1651 | `check_collision` (bounds first, board read only for rows on the board) reports a collision exactly when some filled cell is outside columns 0..9, at or below row 20, or on a filled board cell |
| Tetris.RowCollidesExact | brackixos.py:1642-1650 | the column loop of `check_collision` finds a collision exactly when some filled cell of the shape row is blocked |
| Tetris.CollidesFromExact | brackixos.py:1641-1651 | the row loop of `check_collision` finds a collision exactly when some filled cell of the remaining rows is blocked |
| Tetris.SpawnFitsEmptyGrid | brackixos.py:1556-1564 | each of the seven shapes is a rectangular matrix and fits at its spawn position on an empty board |
| Tetris.Rotated | brackixos.py:1696-1697 | the rotated matrix is rectangular, with height and width swapped |
| Tetris.RotatedTwice | brackixos.py:1696-1697 | two rotations turn the shape by half a turn: cell (i, j) comes from (h-1-i, w-1-j) |
| Tetris.RotatedClockwise | brackixos.py:1696-1697 | the rotation is a clockwise quarter turn: shape cell (r, c) of a shape of height h lands at row c, column h - 1 - r |
| Tetris.RotatedL | brackixos.py:1696-1697 | the L piece `[[1,0,0],[1,1,1]]` rotates to `[[1,1],[1,0],[1,0]]`, not to its transpose |
| Tetris.RotatedFourTimes | brackixos.py:1696-1697 | four rotations give back the original shape |
| Tetris.Stamped | brackixos.py:1653-1657 | the stamped board is still 20 by 10 |
| Tetris.PaintExact | brackixos.py:1657 | one cell assignment changes that cell and no other |
| Tetris.StampStep | brackixos.py:1654-1657 | one iteration of the inner loop of `merge_piece` paints a filled cell that is on the board and keeps the loop state |
| Tetris.StampDone | brackixos.py:1654-1657 | when the loops of `merge_piece` end, the board is exactly the old board with the piece's colour on its filled cells |
| Tetris.NonFullRowsLength | brackixos.py:1659-1668 | every row is either kept or counted as full |
| Tetris.NonFullRowsKept | brackixos.py:1663-1668 | every kept row is a row of the input, and it is not full |
| Tetris.Cleared | brackixos.py:1659-1668 | the board after `clear_lines` has as many rows as before and none of them is full; each row is an empty row or a row of the old board |
| Tetris.ClearedShape | brackixos.py:1659-1668 | after clearing there are still 20 rows of 10 cells and no row is full; the top rows, one per row that was full, are empty; the kept rows follow |
| Tetris.ClearedNoFullRow | brackixos.py:1659-1668 | a board without a full row is left unchanged |
| Tetris.ScanLoopStep | brackixos.py:1662-1668 | one iteration of the `while` loop of `clear_lines`, deleting a full row with an empty row inserted on top, or moving up a row, keeps the loop state; the variant `y + 1 + unscanned rows` decreases |
| Tetris.ScanLoopDone | brackixos.py:1662-1668 | when `y` drops below 0, the board is the cleared board and the counter holds the number of full rows |
| Tetris.TetrisGame.constructor | brackixos.py:1548-1622 | the game starts with an empty board, score 0, and the first piece at its spawn position, where it fits |
| Tetris.TetrisGame.SpawnPiece | brackixos.py:1628-1638 | the new piece is shape `idx` and its colour, at x = 5 - w/2 and y = 0; the game is over exactly when the spawned piece does not fit (or it was already over) |
| Tetris.TetrisGame.MergePiece | brackixos.py:1653-1657 | the nested loops write the piece's colour into exactly its filled cells and leave every other cell as it was |
| Tetris.TetrisGame.ClearLines | brackixos.py:1659-1672 | the board becomes the cleared board: full rows removed, empty rows added on top; the score rises by exactly 100 per full row |
| Tetris.TetrisGame.MoveLeft | brackixos.py:1674-1677 | the piece moves one column left exactly when the game runs and the moved piece fits; otherwise nothing changes; the running piece keeps fitting |
| Tetris.TetrisGame.MoveRight | brackixos.py:1679-1682 | the same, one column right |
| Tetris.TetrisGame.MoveDown | brackixos.py:1684-1692 | nothing changes once the game is over; otherwise the piece falls one row if it fits there, and if not it is locked into the board, lines are cleared and scored, and the next piece spawns, ending the game if it does not fit |
| Tetris.TetrisGame.LockPiece | brackixos.py:1688-1691 | the blocked branch of `move_down`: the board becomes the cleared stamped board, the score rises by 100 per full row of the stamped board, and the game ends exactly when the next piece does not fit; the score stays a multiple of 100 |
| Tetris.TetrisGame.Rotate | brackixos.py:1694-1701 | the shape becomes its quarter turn exactly when the game runs and the turned piece fits at the same anchor (no wall kick); otherwise it is kept |
| Tetris.TetrisGame.ResetGame | brackixos.py:1727-1734 | an empty board, score 0, the game running, and a new piece that fits |
| Snake.Opposite | brackixos.py:1809 | the reverse that `change_direction` compares against is a button direction exactly when the direction is one, and differs from it |
| Snake.OppositeInvolutive | brackixos.py:1809 | reversing a direction twice gives it back |
| Snake.ButtonOpposites | brackixos.py:1764-1776 | the four arrow buttons pair up as reverses: up with down, left with right |
| Snake.NextHead | brackixos.py:1816-1817 | a step in a button direction moves the head to a different cell that shares a side with the old head |
| Snake.FreeDrawLater | brackixos.py:1802-1805 | a draw on the body that is rejected leaves a free draw later in the stream, so the sampling loop ends |
| Snake.FirstFree | brackixos.py:1801-1805 | the cell `spawn_food` returns is one of the draws and is not on the snake |
| Snake.SnakeGame.constructor | brackixos.py:1745-1749 | the start body (10,10), (10,11), (10,12), heading up, score 0; the food is the first free draw |
| Snake.SnakeGame.SpawnFood | brackixos.py:1801-1805 | the `while True` loop returns the first draw that is off the snake; it is on the grid |
| Snake.SnakeGame.ChangeDirection | brackixos.py:1807-1810 | a new direction that is the exact reverse of the current one is rejected; any other is taken at once; so the new direction is never the reverse of the old; the source calls it only with the four button directions |
| Snake.SnakeGame.GameLoop | brackixos.py:1812-1844 | once the game is over, a tick changes nothing. A new head off the grid or on any body cell, the tail included, ends the game with body, score and food unchanged. Eating grows the body by the new head, adds 10 and places new food off the grown body. Otherwise the body shifts and keeps its length. Throughout, the body stays on the grid without repeated cells, each cell next to the one before, and the food stays off it |
| Snake.SnakeGame.ResetGame | brackixos.py:1864-1872 | the start position again, score 0, the game running, and new food off the body |
| TwentyFortyEight.EmptyBoard | brackixos.py:1881 | a 4 by 4 board of zeros |
| TwentyFortyEight.Compress | brackixos.py:1996-1999 | `compress` keeps the length of the line and the non-zero values in their order |
| TwentyFortyEight.CompressZerosLast | brackixos.py:1996-1999 | after `compress` every zero comes after every non-zero value |
| TwentyFortyEight.CompressIdempotent | brackixos.py:1996-1999 | `compress` is idempotent |
| TwentyFortyEight.CompressKeepsSum | brackixos.py:1996-1999 | `compress` keeps the line's sum |
| TwentyFortyEight.CompressOfFullLine | brackixos.py:1996-1999 | a line without zeros is left alone |
| TwentyFortyEight.MergePass | brackixos.py:2001-2007 | a `merge` pass keeps the length of the line, and on a line of tiles (0 or a power of two) it yields tiles |
| TwentyFortyEight.MergeGain | brackixos.py:2001-2007 | on a line of tiles, what a `merge` pass adds to the score is never negative |
| TwentyFortyEight.MergeAt | brackixos.py:2001-2007 | after a `merge` pass, a doubled cell is the left cell of an equal non-zero pair; it holds twice the value, and its right neighbour is zeroed and not doubled in the same pass. A cell outside every pair keeps its value. An equal pair is left unmerged only when its left cell was taken by the pair before |
| TwentyFortyEight.MergeShape | brackixos.py:2001-2007 | the same for every cell of the line |
| TwentyFortyEight.MergeGainIsDoubledSum | brackixos.py:2001-2007 | `merge` adds to the score exactly the sum of the doubled values |
| TwentyFortyEight.MergeKeepsSum | brackixos.py:2001-2007 | `merge` keeps the line's sum |
| TwentyFortyEight.MergeOfDistinctNeighbours | brackixos.py:2001-2007 | a line with no equal neighbours is not changed and scores nothing |
| TwentyFortyEight.MergeStepPair | brackixos.py:2003-2006 | an iteration of the `merge` loop that doubles a pair keeps the loop state: the processed prefix followed by a merge pass of the rest is the merge pass of the input, and the score plus the rest's gain is fixed |
| TwentyFortyEight.MergeStepKeep | brackixos.py:2002-2003 | the same for an iteration that merges nothing |
| TwentyFortyEight.Reverse | brackixos.py:2020-2022 | `line[::-1]` of a line of length n has length n, and its cell k is cell n - 1 - k of the line |
| TwentyFortyEight.ReverseReverse | brackixos.py:2020-2022 | reversing a line twice gives it back |
| TwentyFortyEight.Transpose | brackixos.py:2025 | the column-read board of `up` and `down` is again 4 by 4, and a board of tiles stays one |
| TwentyFortyEight.TransposeTranspose | brackixos.py:2025-2038 | transposing twice gives the board back |
| TwentyFortyEight.SlidPrefixStep | brackixos.py:2012-2022 | sliding row `i` extends the slid prefix by one row and adds that row's gain |
| TwentyFortyEight.RowEmptyCellsExact | brackixos.py:1957 | the list `spawn_tile` builds for row `i` holds exactly the cells of that row from column `j` that hold 0 |
| TwentyFortyEight.EmptyCells | brackixos.py:1957 | the `empty_cells` list holds exactly the cells that hold 0 |
| TwentyFortyEight.NoEmptyCellsIffFull | brackixos.py:1957-1958 | the list is empty exactly when no cell holds 0 |
| TwentyFortyEight.PlaceExact | brackixos.py:1960 | setting one cell changes that cell and no other, and keeps a board of tiles a board of tiles |
| TwentyFortyEight.Spawned | brackixos.py:1956-1960 | a spawn of a tile value on a board of tiles leaves a board of tiles |
| TwentyFortyEight.SpawnedExact | brackixos.py:1956-1960 | `spawn_tile` leaves a full board unchanged, and otherwise sets exactly one previously empty cell to the value |
| TwentyFortyEight.NoMoveFromExact | brackixos.py:2050-2058 | the scan of `check_game_over` from row-major position `k` is true exactly when every cell from there is non-empty and differs from its right and lower neighbours |
| TwentyFortyEight.CheckGameOver | brackixos.py:2048-2058 | `check_game_over` holds exactly when no cell is 0 and no two horizontally or vertically adjacent cells are equal |
| TwentyFortyEight.StuckRow | brackixos.py:2012-2022 | a full row without equal neighbours does not move, towards either end, and scores nothing |
| TwentyFortyEight.GameOverBoardCannotMove | brackixos.py:2009-2058 | when `check_game_over` holds, every direction leaves the board and the score unchanged |
| TwentyFortyEight.Moved | brackixos.py:2009-2038 | a move keeps every cell 0 or a power of two |
| TwentyFortyEight.MoveGain | brackixos.py:2009-2038 | on a board of tiles, a move never lowers the score |
| TwentyFortyEight.MoveKeepsSum | brackixos.py:2009-2038 | a move keeps the sum of all cells |
| TwentyFortyEight.SpawnAddsValue | brackixos.py:1956-1960 | a spawn on a board with an empty cell adds its value to the sum of all cells |
| TwentyFortyEight.SlideLineExample | brackixos.py:2012-2016 | `[2,2,2,0]` moved left is `[4,2,0,0]` for 4 points: the fresh 4 does not merge again |
| TwentyFortyEight.SlideLineNotIdempotent | brackixos.py:2012-2016 | compress, merge, compress is not idempotent: `[2,2,4,0]` gives `[4,4,0,0]`, which gives `[8,0,0,0]` |
| TwentyFortyEight.Game2048.constructor | brackixos.py:1877-1953 | an empty board with two spawned tiles, score 0 |
| TwentyFortyEight.Game2048.ResetGame | brackixos.py:2060-2066 | the same: an empty board, two spawns, score 0 |
| TwentyFortyEight.Game2048.SpawnTile | brackixos.py:1956-1960 | the board becomes the spawned board for the chosen cell and value, and stays a board of tiles |
| TwentyFortyEight.Game2048.Merge | brackixos.py:2001-2007 | the in-place loop leaves the row equal to one merge pass of the input and adds the pass's gain to the score |
| TwentyFortyEight.Game2048.SlideOne | brackixos.py:2013-2022 | compress, merge and compress of one row (reversed before and after each step for `right`) give the slid row, and the score grows by its gain |
| TwentyFortyEight.Game2048.SlideAll | brackixos.py:2012-2022 | the row loop slides every row and adds the gains of all rows |
| TwentyFortyEight.Game2048.SlideBoard | brackixos.py:2011-2038 | the four branches of `move`: the board becomes the moved board and the score grows by the move's gain |
| TwentyFortyEight.Game2048.SpawnIfChanged | brackixos.py:2040-2046 | a tile is spawned, and the end of the game checked, only when the move changed the board |
| TwentyFortyEight.Game2048.Move | brackixos.py:2009-2046 | the board becomes the moved board (transposed around the row loop for `up` and `down`). A tile is spawned exactly when the move changed the board. The score grows by the merge gains. Game over is reported only after a changing move, and exactly when `check_game_over` holds. The board stays a board of tiles |
| MemoryMatch.DeckSize | brackixos.py:1371-1372 | a shuffle of the fruit list doubled has 16 cards |
| MemoryMatch.PairsExtend | brackixos.py:1422-1423 | `extend`ing the matched list by two equal cards keeps it a list of equal pairs |
| MemoryMatch.PairsEven | brackixos.py:1422-1423 | a list of pairs has even length |
| MemoryMatch.CoversIffFull | brackixos.py:1425 | a list of distinct indices below `n` has `n` entries exactly when it holds every index below `n` |
| MemoryMatch.AllMatched | brackixos.py:1425 | the victory test `len(matched) == 16` holds exactly when every card is matched |
| MemoryMatch.MemoryMatchGame.constructor | brackixos.py:1368-1375 | the shuffled deck, nothing turned up or matched, no moves |
| MemoryMatch.MemoryMatchGame.FlipCard | brackixos.py:1407-1416 | a card that is turned up, is matched, or comes when two are up is ignored. Otherwise the card is turned up, and the move counter grows, and the check is scheduled, exactly when it is the second card. At most two cards are up, none of them matched |
| MemoryMatch.MemoryMatchGame.CheckMatch | brackixos.py:1419-1431 | both cards join `matched` exactly when their faces are equal; the turned-up list is emptied either way; victory is reported exactly when a match brings `matched` to 16 |
| MemoryMatch.MemoryMatchGame.ResetGame | brackixos.py:1433-1443 | a new shuffled deck, nothing turned up or matched, no moves |
| TicTacToe.EmptyBoard | brackixos.py:2074 | a 3 by 3 board with every cell empty |
| TicTacToe.Put | brackixos.py:2137 | writing a mark changes that cell and no other |
| TicTacToe.CheckWinner | brackixos.py:2173-2190 | `check_winner` holds exactly when some player holds one of the three rows, three columns or two diagonals |
| TicTacToe.LineKept | brackixos.py:2137 | a line another player holds after a mark is written was held before |
| TicTacToe.OnlyMoverCanWin | brackixos.py:2137-2164 | writing a mark on a board without a winner can make only the mover a winner |
| TicTacToe.CheckDraw | brackixos.py:2192-2196 | `check_draw` holds exactly when every cell is marked |
| TicTacToe.WinNeedsThree | brackixos.py:2173-2190 | a player holding a line has at least three marks on the board |
| TicTacToe.FewMarksNoWinner | brackixos.py:2173-2190 | while each player has fewer than three marks, `check_winner` finds no winner |
| TicTacToe.CountPut | brackixos.py:2137 | writing a mark into an empty cell adds one of that mark and no other |
| TicTacToe.TicTacToeGame.constructor | brackixos.py:2074-2076 | an empty board, X to move, the game running |
| TicTacToe.TicTacToeGame.MakeMove | brackixos.py:2133-2170 | a click on a marked cell, or after the game ended, changes nothing. Otherwise the mover's mark is written. A win ends the game and the winner is the mover; a full board ends it as a draw; otherwise the other player moves. While the game runs, X has moved once more than O exactly when O is to move |
| TicTacToe.TicTacToeGame.ResetGame | brackixos.py:2198-2201 | an empty board, X to move, the game running again |
| TicTacToe.PlayTopRowWin | brackixos.py:2133-2190 | X at (0,0), O at (1,0), X at (0,1), O at (1,1), X at (0,2) wins the game for X along the top row |
| TicTacToe.ReplayAfterReset | brackixos.py:2198-2201 | after a won game and a reset, the next click places X's mark |
| NumberGuess.NumberGuessGame.constructor | brackixos.py:1284-1286 | the secret in 1..100, no attempts, the entry box enabled |
| NumberGuess.NumberGuessGame.CheckGuess | brackixos.py:1325-1355 | text that is not a number, or a number outside 1..100, is answered without using an attempt. Any other guess uses one attempt and gets the answer for it. The box is disabled exactly when the answer is a win or a loss. No more than ten attempts are used |
| NumberGuess.Answer | brackixos.py:1339-1352 | the guess is correct exactly when it equals the secret; the game is lost exactly when a wrong guess is the tenth or later; otherwise the hint is "too low" exactly when the guess is below the secret and "too high" exactly when it is above |
| NumberGuess.NumberGuessGame.ResetGame | brackixos.py:1357-1363 | a new secret in 1..100, no attempts, the box enabled again |

## Left out

- The Qt user interface is not modelled: windows, labels, style sheets, `paintEvent`, `update_display`, `get_tile_color`, message boxes, the move history text, and the `canvas.update()` calls.
- The `QTimer` scheduling is not modelled. The Tetris `game_loop` is a call of `MoveDown`, the snake tick is a call of `GameLoop`, and the deferred `check_match` is a call of `CheckMatch`. Stopping the timers at game over and cancelling them when the window closes are left out.
- Randomness is not modelled as probability. The draws are arguments:
  - the Tetris shape index is in 0..6;
  - the snake's food draws are a sequence of grid cells;
  - the 2048 spawn is an index into the list of empty cells and a value of 2 or 4, without the 90/10 split between them;
  - the memory deck is any permutation of the sixteen cards;
  - the secret number is in 1..100.
- Snake.SnakeGame.GameLoop: requires, when the head lands on the food, a draw in the stream that is off the grown body. In the source a snake that covers the whole grid makes `spawn_food` loop forever, and a finite stream cannot stand for that.
- Snake.SnakeGame.SpawnFood: the draw stream is finite and must contain a free cell. The source's unbounded retries are the same loop over an unbounded stream.
- MemoryMatch.MemoryMatchGame.CheckMatch: requires two turned-up cards. In the source, a reset between the second flip and the timer firing empties `revealed`, and the unpacking at brackixos.py:1420 then raises.
- TwentyFortyEight.Game2048.Move: directions are the four constructors of `Direction`. A direction string other than the four leaves the board as it was in the source, and the model has no such value.
- Two direction changes within one snake tick are not analysed further. `change_direction` compares with the current direction only, so two quarter turns between ticks reverse the snake, and the next tick runs into its neck; the model keeps this behaviour.
- NumberGuess.NumberGuessGame.CheckGuess: the entry text is taken already parsed, as `None` for text that `int()` rejects. A disabled box has been cleared, so its entry is `None`.
- The Tetris cells hold the colour string of the piece, as in the source; the colours are not interpreted.
- `UserManager`, `ClickSpeedGame`, the other desktop applications, genericcalc.py and genericnotepad.py are not part of this model.
