# Connect4 engine, modelled in Dafny

This project models the `Connect4` class of the four-in-a-row game in
connect4.py. A game holds three things:
- a `rows × cols` board, a two-dimensional array of cells, where 0 is empty, 1 is the player and 2 is the bot;
- the player to move;
- the constants of the class.

Its methods fall into five groups:
- gravity drops and column tests, for the board;
- a full-board win scan and an incremental win check from the last cell;
- a heuristic score over every four-cell window;
- depth-limited minimax with alpha-beta pruning;
- the easy, medium and hard computer moves.

The project is five modules:

- `Grid` (grid.dfy) is the board as a value, `seq<seq<int>>`. It covers the gravity drop (`Place`, `NextOpenRow`), the open columns, the full-board test, and the gravity invariant "empty cells form a top prefix of every column".
- `Win` (win.dfy) defines one notion of "four in a row": a window of four cells that lies in the grid, along one of four axes, and holds only the piece. Both detection routines are proved against it:
  - `winning_move`'s scan, block by block;
  - `check_winner`'s counting of runs in both directions from a cell.
- `Evaluator` (evaluator.dfy) holds the window score table of `evaluate_window` and the sum `score_position` forms. It also proves bounds on that sum.
- `Search` (search.dfy) gives the value `minimax` computes, as pure recursive functions.
  - `Value` and `Scan` are the pruned search.
  - `PlainValue` and `PlainScan` are the same recursion without the `alpha >= beta` cut-off.
  - The lemmas prove that the pruned value and the plain value agree within the window. With the root window of the hard setting they agree exactly.
- `Game` (game.dfy) is the class `Connect4`. It has an `array2<int>` board and the current player as fields. Each method of the source becomes a method or a function of the class, proved against the specification functions above:
  - the methods that loop (`make_move`, `get_next_open_row`, `check_draw`, `count_consecutive_tokens`, `score_position`, `minimax`, the medium setting's scan) carry loop invariants;
  - `switch_player`, `reset_game` and `drop_piece` are methods without loops;
  - `is_valid_move` and `get_valid_locations` only read the board and are functions;
  - `winning_move` and `evaluate_window` are the functions `Win.WinningMove` and `Evaluator.EvaluateWindow`.

The search deliberately reads two boards, as the source does:
- the live board `self.board`, which alone decides the candidate columns and the draw test (`is_valid_move` reads `self.board`, so `get_valid_locations` ignores its board argument and `check_draw` takes none);
- the hypothetical board of the node, on which wins are sought and pieces are dropped.

## Model

| member | source | states |
|---|---|---|
| Grid.Place | connect4.py:175 | the dropped board has the same shape, holds the piece at (row, col), and agrees with the old board on every other cell |
| Grid.EmptyBoard | connect4.py:42 | the initial board has the given dimensions and every cell is empty |
| Grid.NextOpenRowFrom | connect4.py:153-156 | searching rows r down to 0 finds the empty cell with the largest index not above r, every cell below it up to r being occupied; None exactly when rows 0..r are all occupied |
| Grid.NextOpenRow | connect4.py:153-156 | the landing row is an empty cell with only occupied cells below it; None exactly when the whole column is occupied |
| Grid.OpenColumnsFrom | connect4.py:285 | the open columns from c on, in range and strictly ascending; a column from c on is listed iff its top cell is empty |
| Grid.ValidColumns | connect4.py:285 | the valid locations: strictly ascending, every entry in range, and a column is listed iff its top cell is empty |
| Grid.IsOpen | connect4.py:87 | a column is open iff its top cell is empty |
| Grid.Full | connect4.py:230-233 | the board is full iff no column is open |
| Grid.FullIffNoValidColumn | connect4.py:230-233 | the board is full (no open top cell) iff the list of valid locations is empty |
| Grid.OpenIffRoom | connect4.py:87 | under gravity, the top-cell test of `is_valid_move` holds iff `get_next_open_row` finds a row |
| Grid.DropKeepsGravity | connect4.py:68-72 | dropping a piece into the lowest empty row keeps every column's empty cells a top prefix |
| Grid.DropKeepsPieces | connect4.py:68-72 | dropping a piece of one of the three kinds keeps every cell in {0, 1, 2} |
| Win.FitsIffEnds | connect4.py:120-136 | the anchors `winning_move` tries are exactly those whose window has both end cells inside the grid, so every index it reads is in range |
| Win.Window | connect4.py:120-136 | a fitting window has four cells, all inside the grid, each the board's cell at the window's i-th position |
| Win.HasFour | connect4.py:120-136 | a four in a row: some four-cell window that lies in the grid, along one of the four axes, holds only the piece |
| Win.ScanRows | connect4.py:120-135 | the inner loop over rows from r on finds a window iff some four-window anchored in this column at a row from r on holds only the piece |
| Win.ScanColumns | connect4.py:120-135 | the outer loop over columns from c on finds a window iff some four-window of this axis anchored at a column from c on holds only the piece |
| Win.AxesCoverFour | connect4.py:120-136 | a four in a row exists iff one exists on one of the four axes the four blocks scan |
| Win.WinningMove | connect4.py:120-136 | `winning_move` is true iff some in-bounds horizontal, vertical, down-right or up-right window of four holds only the piece |
| Win.RunLength | connect4.py:207-212 | the walk's count: the number of consecutive cells holding the piece from (r, c) along (dr, dc), the origin included, stopping at the edge of the grid |
| Win.RunCovers | connect4.py:207-213 | the walk from (r, c) counts at least k cells iff the first k cells along the direction are in the grid and hold the piece |
| Win.RunsGiveWindow | connect4.py:216 | runs forward and backward, each counting the origin, of total at least five give a four-window on that axis through (r, c) |
| Win.WindowGivesRuns | connect4.py:216 | a four-window on an axis through (r, c) holding only the piece makes the two runs total at least five |
| Win.LineIff | connect4.py:216 | on one axis, the two runs total at least five iff some four-window on that axis through (r, c) holds only the piece |
| Win.DirectionWins | connect4.py:215-216 | the test of the k-th direction pair: the two walks' counts, each less one, add up to at least 3 |
| Win.DirectionWinsIff | connect4.py:215-217 | the test for the k-th direction pair succeeds iff a four-window on its axis through (r, c) holds only the piece |
| Win.ThroughFourIffSomeDirection | connect4.py:215 | the four direction pairs cover all four axes |
| Win.ThroughFourIffDirectionWins | connect4.py:215-218 | some direction test succeeds iff some four-window through (r, c), on any axis, holds only the piece |
| Win.ThroughFourIsWin | connect4.py:215-218 | a four-window through (r, c) is a four in a row for `winning_move`, and (r, c) holds the piece |
| Evaluator.Count | connect4.py:373 | `list.count` never exceeds the length of the list |
| Evaluator.Opponent | connect4.py:417 | the opponent of the bot is the player; of any other piece, the bot |
| Evaluator.EvaluateWindow | connect4.py:416-428 | a window scores between -4 and 100 |
| Evaluator.CountSplit | connect4.py:419-425 | counts of three distinct values add up to at most the window's length |
| Evaluator.CountAll | connect4.py:419 | a value's count equals the length iff every cell holds it |
| Evaluator.WindowScoreTable | connect4.py:416-428 | on a four-cell window: 100 iff all four are own pieces; 5 iff three own and one empty; 2 iff two own and two empty; -4 iff three opponent pieces and one empty; otherwise 0 |
| Evaluator.AnchorFits | connect4.py:376-396 | every window the four loop blocks of `score_position` build lies inside the grid |
| Evaluator.AnchorCovers | connect4.py:376-396 | conversely, every window of four that lies inside the grid along an axis is built by that axis's block at some pair of loop indices |
| Evaluator.AnchorInjective | connect4.py:376-396 | distinct loop indices of a block build distinct windows, so no window is scored twice |
| Evaluator.Column | connect4.py:372 | the centre array holds column c of every row, top to bottom |
| Evaluator.RowSumBounds | connect4.py:378-380 | i windows of one row of the loops score between -4i and 100i |
| Evaluator.AxisSumBounds | connect4.py:376-396 | the windows of o rows of the loops score between -4 and 100 times their number |
| Evaluator.AxisWindowsAtMostCells | connect4.py:376-396 | each block visits at most rows × cols windows |
| Evaluator.Score | connect4.py:370-398 | three per own piece in the centre column plus the table score of every window the four blocks visit |
| Evaluator.ScoreBounds | connect4.py:370-398 | a position scores between -16 and 400 points per cell, plus 3 per row for the centre column |
| Search.ScoreBelowSentinel | connect4.py:317 | on a board of at most 24000 cells the depth-0 score lies within the sentinels ±9999999 |
| Search.IsTerminal | connect4.py:104 | terminal iff either side has a four on the node's board or the live board is full |
| Search.Mover | connect4.py:326 | the maximising side drops the bot's piece, the minimising side the player's (connect4.py:343) |
| Search.Better | connect4.py:328 | a child value replaces the incumbent only when strictly greater for the maximiser, strictly smaller for the minimiser (connect4.py:345) |
| Search.Value | connect4.py:305-351 | a leaf (depth 0, a four for either side, or a full live board) has no column; any column returned is a valid location of the live board; an inner node has no column when no child strictly beats the initial sentinel (the random pick is added by `Game.Connect4.SearchColumns`); on a small board the value lies within ±9999999 |
| Search.Scan | connect4.py:319-351 | the loop keeps the incumbent column or picks one of the remaining columns; the value never gets worse for the mover; it stays within the sentinels on a small board |
| Search.ScanAllSkipped | connect4.py:322-324 | when no remaining column has an open row on the node's board, the incumbent is returned unchanged |
| Search.FullCopyGivesSentinel | connect4.py:319-351 | a non-terminal inner node whose board has no empty cell is worth its initial sentinel (-9999999 maximising, 9999999 minimising), with no column |
| Search.PlainValue | connect4.py:305-351 | the unpruned value lies within the sentinels on a small board |
| Search.PlainScan | connect4.py:322-333 | the unpruned loop never makes the incumbent worse for the mover and stays within the sentinels on a small board |
| Search.AlphaBeta | connect4.py:319-351 | for -9999999 <= alpha < beta <= 9999999, the pruned and unpruned values agree once both are clamped into [alpha, beta] |
| Search.MaxStep | connect4.py:328-331 | one maximising update keeps the clamped incumbents of the two searches equal |
| Search.MinStep | connect4.py:345-348 | one minimising update keeps the clamped incumbents of the two searches equal |
| Search.ScanMax | connect4.py:319-334 | the maximising loop with the break and the one without agree within [alpha, beta] |
| Search.ScanMaxDrop | connect4.py:323-333 | the same for a maximising step that drops into an open column |
| Search.ScanMin | connect4.py:336-351 | the minimising loop with the break and the one without agree within [alpha, beta] |
| Search.ScanMinDrop | connect4.py:340-350 | the same for a minimising step that drops into an open column |
| Search.MaxChild | connect4.py:326-331 | a maximising node's child searched in the raised window keeps the clamped incumbents equal |
| Search.MinChild | connect4.py:343-348 | a minimising node's child searched in the lowered window keeps the clamped incumbents equal |
| Search.ScanFindsWin | connect4.py:322-334 | a maximising loop whose beta is 9999999 and whose remaining columns include one where the bot's drop completes a four ends worth 9999999 |
| Search.ImmediateWinValue | connect4.py:305-334 | a non-terminal node where the bot to move has a valid column that wins at once is worth 9999999, for any alpha below it |
| Search.PruningPreservesValue | connect4.py:474 | with the root window (-9999999, 9999999) of the hard setting, the pruned value equals the plain minimax value on a small board |
| Game.CopyBoard | connect4.py:325 | the copy is a new array with the same dimensions and cells |
| Game.TrialWins | connect4.py:455-467 | a trial drop of the mover, or else of the opponent, into the lowest empty cell of the column completes a four through that cell |
| Game.WinOrBlock | connect4.py:453-468 | the column the medium scan returns from c on is in range and open |
| Game.WinOrBlockFirst | connect4.py:453-468 | that column is one where a trial drop of the mover or the opponent wins, and no earlier open column wins; None iff no open column from c on wins |
| Game.Connect4.constructor | connect4.py:39-50 | a new game, by default 6 × 7, has an empty board of the given dimensions, player 1 to move, and a valid state |
| Game.Connect4.MakeMove | connect4.py:68-72 | with room in the column, the current player's piece lands in the lowest empty row, no other cell changes, and (row, col) is returned; a full column returns None and leaves the board as it was; a valid state stays valid; in a valid state a move is made iff `is_valid_move` holds for the column |
| Game.Connect4.IsValidMove | connect4.py:87 | a column is valid iff its top cell on the live board is empty; in a valid state, iff the column has an empty cell to drop into |
| Game.Connect4.GetValidLocations | connect4.py:285 | exactly the valid columns, strictly ascending |
| Game.Connect4.CheckDraw | connect4.py:230-233 | a draw iff no column is open, iff the valid locations are empty |
| Game.Connect4.SwitchPlayer | connect4.py:245 | the player to move becomes 3 minus the old one; a valid state stays valid |
| Game.Connect4.ResetGame | connect4.py:257-258 | a new empty board, player 1 to move, and a valid state |
| Game.Connect4.IsTerminalNode | connect4.py:104 | terminal iff either side has a four on the node's board or the live board is full |
| Game.Connect4.GetNextOpenRow | connect4.py:153-156 | the lowest empty row of the column of the node's board, or None when the column is occupied |
| Game.Connect4.CountConsecutive | connect4.py:207-213 | the walk's count is the run length from (row, col) in the direction, origin included, less one |
| Game.Connect4.CheckWinner | connect4.py:193-218 | true iff some four-window through (row, col) holds only the player; then `winning_move` holds too and the cell holds the player |
| Game.Connect4.DropPiece | connect4.py:175 | the board becomes the old one with the piece at (row, col) |
| Game.Connect4.ChildBoard | connect4.py:325-326 | the copy-and-drop of one search step gives a fresh array whose cells are the node's board with the piece at (row, col), the child `Search.Scan` scores |
| Game.Connect4.AxisWindows | connect4.py:376-396 | one loop block adds up the window scores of its windows, which by `AnchorFits`, `AnchorCovers` and `AnchorInjective` are every window of four along its axis that lies inside the grid, each once |
| Game.Connect4.BoardScore | connect4.py:370-398 | the loops compute the centre weight plus the four blocks of window scores |
| Game.Connect4.ScorePosition | connect4.py:370-398 | the score of the node's board is `Evaluator.Score`: three per own piece in the centre column plus the table score of every horizontal, vertical and diagonal window inside the grid, each once |
| Game.Connect4.Minimax | connect4.py:305-351 | the value and the column are those of the pruned search of the node's board: no column at a leaf, a valid location of the live board otherwise; no board is written |
| Game.Connect4.SearchNode | connect4.py:305-317 | the value is that of the pruned search; a leaf returns no column, an inner node a valid location of the live board, the scan's column whenever it picks one |
| Game.Connect4.SearchColumns | connect4.py:319-351 | at an inner node the value is the scan's, and so is the column whenever the scan picks one; the column is always a valid location |
| Game.Connect4.ColumnLoop | connect4.py:322-334 | the loop over the valid locations ends with the scan's value and, when the scan picks a column, that column; the column returned is always a valid location |
| Game.Connect4.RandomColumn | connect4.py:321 | the initial pick is one of the valid locations |
| Game.Connect4.TryColumn | connect4.py:323-333 | one pass of the loop is one step of the scan: the scan from the next column (or the incumbent, on a break) has the same result |
| Game.Connect4.ChildScore | connect4.py:327 | the child's score is the pruned value of the child position for the other side |
| Game.Connect4.TrialDrop | connect4.py:457-461 | true iff the piece written into the empty cell completes a four-window through it; the board ends as it began |
| Game.Connect4.TrialColumn | connect4.py:455-468 | at the lowest empty row the mover's piece and then the opponent's are tried; the result is whether either wins, and the board ends as it began |
| Game.Connect4.WinOrBlockMove | connect4.py:452-468 | the first open column, ascending, where the mover's or the opponent's drop wins, or None; the board is unchanged |
| Game.Connect4.EasyMove | connect4.py:447-449 | some valid location, or None iff there is none |
| Game.Connect4.MediumMove | connect4.py:450-471 | the win-or-block column when there is one, else some valid location, and None iff none is valid; the board is unchanged |
| Game.Connect4.HardMove | connect4.py:472-475 | the column of a depth-4 pruned search of the live board for the bot; None iff the root is terminal |
| Game.Connect4.GetAiMove | connect4.py:445-476 | dispatch on the difficulty with each setting's guarantee; any move is a valid location; an unknown difficulty gives None; the board is unchanged |

## Left out

- main.py, the pygame front end, is not part of this model: drawing, the event loop and `sys.exit` are I/O.
- The `players` dictionary (connect4.py:44) carries only labels and is not modelled. `get_board_state` is the identity on `self.board`, so the hard setting passes the live board directly.
- `random.choice` is an arbitrary member of the non-empty list (`:|`); its distribution is not modelled.
- Game.Connect4.MakeMove, Game.Connect4.IsValidMove, Game.Connect4.GetNextOpenRow, Game.Connect4.TrialColumn: these require `0 <= col < cols`. Python's negative-index wrap-around and its `IndexError` are not modelled.
- Game.Connect4.SearchNode, Game.Connect4.SearchColumns, Game.Connect4.TryColumn: the search below `Minimax` runs on board values. The row-by-row copy and the drop into it (connect4.py:325-326, 342-343) are `Place` on a value. `ChildBoard` (built from `CopyBoard` and `DropPiece`) models those two steps on arrays and yields the same value, but the search does not call it, so aliasing between copies is not modelled. `Minimax` has no `modifies` clause, so it writes neither board.
- Search.PruningPreservesValue: the exact equality of the pruned and plain values at the root window is proved for boards of at most 24000 cells. `ScoreBounds` keeps a depth-0 score inside ±9999999 only for boards up to that size. `AlphaBeta`, the clamped agreement, holds on every board.
- Search.Value, Search.Scan: the bound ±9999999 on values is stated for such small boards only, for the same reason.
- Game.Difficulty: the difficulty string is a datatype with the three known settings and `Unrecognised` for every other string, which falls through to `return None` (connect4.py:476).
- Game.Connect4.MediumMove: the code (connect4.py:453-468) tries both pieces column by column, so a block in a lower column is returned before a win in a higher one; the model follows the code.
- Game.Connect4.HardMove: the model does not promise that the hard setting plays an immediately winning column when there is one. `Search.ImmediateWinValue` proves only that such a root is worth 9999999. The loop keeps the first column that reaches that value and then stops (connect4.py:328-333), and an earlier column that forces a win later is worth as much. In a hand trace (not executed) of a 6 × 7 board whose only pieces are bot pieces in columns 3, 4 and 5 of the bottom row, with the bot to move, column 0 is worth 9999999, because the player cannot block both ends. The search therefore returns column 0 and not column 2 or 6.
- Search.ScanFindsWin, Search.ImmediateWinValue: stated for the maximising side only. The minimising mirror would need a lemma that a player's drop never creates a four for the bot, and the model does not prove that.
- The constants `ROW_COUNT`, `COLUMN_COUNT` (connect4.py:48-49) are the `rows` and `cols` fields; the piece constants and `WINDOW_LENGTH` are module constants of `Grid`.
- The number of nodes the pruning saves is not modelled; only the returned values are.
