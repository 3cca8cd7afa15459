# Tic-tac-toe board engine

A Dafny model of the game engine in `app.py`, a Streamlit tic-tac-toe app with an optional
computer opponent. The model covers the following:

- **Board.** `Grid`: a 3×3 board stored row-major as nine cells over `'.'`, `'X'` and `'O'`.
- **Free cells.** `check_available_moves`, in both its flat-index and its `(row, col)` form.
- **Win detection.** `Win`:
  - `check_rows`, `check_diagonals` and `check_win`, exactly as written;
  - the evaluation the program evidently intends (`Win.Evaluate`).
- **Session.** `Game`: the game-related part of the session state as an immutable record, advanced by:
  - `init`;
  - `handle_click`;
  - the state-changing part of `check_state`;
  - the two ways the page restarts a game (the *New game* button and the opponent selector).

`handle_click` hands a reward to the learning agent and saves its policy. The model emits this as a value: `Some(v)` stands for `feedReward(v)` followed by `savePolicy()`.

Two quirks of the source are kept as written in `Win.CheckWin` and `Game.Click`:

- **'.' short-circuits the search.** `check_rows` treats an all-`'.'` line as uniform, and `'.'` is a truthy string. So `check_win` stops at the first empty row or column and answers `'.'`. A completed line can go unrecorded, and play goes on until a later line is scored, possibly for the other player.
- **`None` is rewarded.** `handle_click` only tests the result against `"."`. A `None` answer (no uniform line) therefore enters the reward branch.

Both are recorded under "## Findings", the first in two rows. Each row comes with an as-written witness and a corrected transition (`Game.ClickIntended`).

## Model

| member | source | states |
|---|---|---|
| Grid.AvailableMoves | app.py:46-51 | An index is listed exactly when it is in [0, 9) and its cell is '.'. The list is strictly increasing and has one entry per '.' cell. |
| Grid.FreeFromCount | app.py:47-48 | Scanning from index k finds as many free indices as there are '.' cells in the board from k on. |
| Grid.FreeFrom | app.py:48 | The scan from index k lists only indices in [k, 9) holding '.', lists every such index, and lists them in increasing order. |
| Grid.AvailableCoords | app.py:49-50 | The pair form has one pair per free index; the k-th pair is (i // 3, i % 3) for the k-th free index i, lies on the board and maps back to i by 3*r+c. |
| Grid.FreeCoordinateListed | app.py:14 | A pair (i, j) is offered by the pair form of the free-cell list exactly when it names a cell on the board that holds '.'. |
| Grid.CountUpdate | app.py:18 | Writing one cell changes the count of a symbol only by the old and the new symbol of that cell. |
| Win.UniformIsSingletonSet | app.py:55 | A line is uniform exactly when the set of its symbols has one element. |
| Win.CheckRows | app.py:53-57 | The result is None exactly when no line is uniform. Otherwise it is the first symbol of the first uniform line, which may be '.'. |
| Win.CheckRowsAppend | app.py:81-84 | Scanning rows and then columns, stopping at the first answer, is the same as scanning the joined list of lines. |
| Win.Rows | app.py:54 | The board as check_rows iterates it: three lines of three cells, cell (r, c) being the board's cell 3*r+c. |
| Win.Transpose | app.py:81 | The transpose of a rectangular grid has as many lines as the grid has columns, each as long as the grid has lines. |
| Win.TransposeInvolution | app.py:81 | The transpose swaps the coordinates, and transposing twice gives back the grid. |
| Win.MainDiagonal | app.py:60 | The main diagonal has one cell per line of the square grid. |
| Win.AntiDiagonal | app.py:62 | The anti-diagonal has one cell per line of the square grid. |
| Win.CheckDiagonals | app.py:59-64 | The diagonal check answers as the row check does on the two lines main diagonal, anti-diagonal, in that order. |
| Win.CheckWin | app.py:80-85 | No contract of its own: its answer is stated by Win.CheckWinSearchOrder, Win.WinnerSound and Win.CheckWinAgreesWithEvaluate. |
| Win.Lines | app.py:80-85 | The eight lines visited are rows 0-2, columns 0-2, the main diagonal and the anti-diagonal, each with its three board cells. |
| Win.CheckWinSearchOrder | app.py:80-85 | check_win answers the first symbol of the first uniform line among the eight, in that order, and None exactly when no line is uniform. |
| Win.WinnerSound | app.py:80-85 | When check_win names X or O, three copies of that mark fill some row, column or diagonal. |
| Win.FirstLineAnswers | app.py:81-85 | When line k holds three copies of a symbol and no earlier line in check_win's order has three equal cells, check_win answers that symbol, '.' included, whatever lines follow. |
| Win.CheckRowsAgreesWithFirstMarked | app.py:53-57 | Unless the row check stops on an all-'.' line, it finds the same line as a search that skips all-'.' lines. |
| Win.Evaluate | app.py:20-30 | Intended outcome: a win exactly when some mark fills a line, naming the mark of the first such line in check_win's order; a draw exactly when no mark fills a line and no cell is free; in progress otherwise. |
| Win.CheckWinAgreesWithEvaluate | app.py:80-85 | When check_win does not answer '.', it is None exactly when the intended outcome is not a win. When it is a win, check_win names the winning mark. |
| Win.CheckWinMasksWin | app.py:83-84 | On the one board [. . . / O O . / X X X] (Win.MaskedWin), check_win answers '.', while X has a line, O has none and the intended outcome is X's win. |
| Win.CheckWinCreditsO | app.py:80-85 | On the one board [X . . / O O O / X X X] (Win.WrongCredit), both X and O fill a line and check_win answers O, the middle row coming first in its order. |
| Win.CheckWinNoneMidGame | app.py:85 | On the one board [X . O / . . O / . X .] (Win.Open), no line is uniform and check_win answers None. |
| Win.OpenInProgress | app.py:76-78 | The same board Win.Open, with a free cell and no line, is a game in progress as intended. |
| Game.Init | app.py:36-44 | A fresh game: every cell is '.', X to move, no warning, no winner, not over. A full reset also sets the opponent to Human and the score to zero; init(True) keeps both. |
| Game.InitCounts | app.py:40-41 | A fresh board has nine '.' cells and no marks. |
| Game.InitTurns | app.py:36-44 | Every init, full or post-init, leaves a session that satisfies the turn invariant. |
| Game.RewardFor | app.py:25-30 | For any check_win answer other than '.', the reward is 1 exactly for X, 0 exactly for O, and 0.1 exactly for None. |
| Game.Toggle | app.py:19 | The player after a move differs from the player before it. |
| Game.Placed | app.py:17-19 | No contract of its own: the warning cleared, the mover's mark written and the turn toggled; Game.PlacedShows and Game.Accept state what it does. |
| Game.Accept | app.py:16-33 | With the cell free and no winner recorded: exactly the clicked cell changes, to the mover's mark; the '.' count drops by one; the turn passes and the warning clears; opponent, score and game-over flag stay; check_win's answer is recorded unless it is '.'; a reward is issued exactly against the computer when check_win did not answer '.', 1 for X, 0 for O, 0.1 for None. |
| Game.Click | app.py:13-33 | A pair that is not a free cell only sets the warning, with no reward; a free cell clicked after a winner is recorded changes nothing; otherwise the accepted transition applies. |
| Game.RecordedWinnerHasLine | app.py:20-22 | A winner recorded by a click is X or O, and that mark fills a line of the new board. |
| Game.Tally | app.py:74 | No contract of its own: `win.get(c, 0)`; Game.CheckState states how the tally moves. |
| Game.CheckState | app.py:66-78 | Board, player, winner, warning and opponent stay; the game is over afterwards exactly when it was over, a winner is recorded, or no cell is free; a recorded winner in a game not yet over gains one on its tally and no other tally changes; otherwise the score stays. |
| Game.CheckStateIdempotent | app.py:71-78 | Running the bookkeeping twice is the same as running it once, so the score grows by at most one. |
| Game.Apply | app.py:101-103 | No contract of its own: one event is a click (handle_click), a page run (check_state), New game (init(True), app.py:117) or a change of opponent (on_opponent_selected); Game.ApplyPreservesTurnInvariant and Game.InGameStep state what it keeps. |
| Game.Run | app.py:106-142 | No contract of its own: the events in order; Game.RunPreservesTurnInvariant and Game.ScoreAtMostOncePerGame state what it keeps. |
| Game.TurnFromFreeCount | app.py:18-19 | Under the turn invariant it is X's turn exactly when an odd number of cells is free. |
| Game.AcceptedClickKeepsTurns | app.py:18-19 | An accepted click keeps the counts balanced and the turn consistent with them. |
| Game.ClickPreservesTurnInvariant | app.py:13-19 | Every click keeps the turn invariant: X has as many marks as O or one more, and it is X's turn exactly when the counts are equal. |
| Game.ApplyPreservesTurnInvariant | app.py:101-103 | Every event keeps the turn invariant: a click, a page run, New game, or a change of opponent. |
| Game.RunPreservesTurnInvariant | app.py:13-44 | Any sequence of events keeps the turn invariant. |
| Game.TurnInvariantFromInit | app.py:36-44 | Every session reached from init() by any events satisfies the turn invariant. |
| Game.InGameStep | app.py:71-75 | A click or a page run never increases the score plus one for a game not yet over, and never changes a recorded winner. |
| Game.ScoreAtMostOncePerGame | app.py:71-78 | Within one game (clicks and page runs only), the score grows by at most one, and not at all once the game is over. A recorded winner never changes. |
| Game.AcceptIntended | app.py:20-30 | The mark is placed and the turn passes; a winner is recorded exactly when a mark fills a line, and the recorded winner has one; the computer is rewarded exactly when the game has ended by a win or a full board, 1 exactly for an X win, 0 exactly for an O win, 0.1 exactly for a draw. |
| Game.ClickIntended | app.py:13-33 | The corrected click has the same rejection and after-win branches as the click; placing a mark goes through the intended transition. |
| Game.QuietMove | app.py:20-21 | When check_win answers '.', the click places the mark, passes the turn and does nothing else. |
| Game.ShownQuiet | app.py:83-84 | A board whose first line of three equal cells is an all-'.' line makes check_win answer '.'. |
| Game.PlacedShows | app.py:18-19 | Placing the mover's mark at a free cell gives the board with that one cell written, passes the turn and keeps winner and opponent. |
| Game.MaskedWinOpening | app.py:13-22 | From a fresh game against the computer, X (2, 0), O (1, 0), X (2, 1), O (1, 1) each click a free cell, check_win answers '.' after each, so each click only places its mark (it equals Step(Placed(..), None)), and the position reached is the first finding's starting position. |
| Game.OpenAfter1Quiet | app.py:80-85 | After X (0, 0) the first uniform line is the empty middle row, so check_win answers '.'. |
| Game.OpenAfter2Quiet | app.py:80-85 | After O (1, 2) the first uniform line is the empty bottom row, so check_win answers '.'. |
| Game.OpenSetupQuiet | app.py:80-85 | After X (2, 1) the first uniform line is the empty anti-diagonal, so check_win answers '.'. |
| Game.OpenOpening | app.py:13-22 | From a fresh game against the computer, X (0, 0), O (1, 2), X (2, 1) each click a free cell, check_win answers '.' after each, so each click only places its mark (it equals Step(Placed(..), None)), and the position reached is the second finding's starting position. |
| Game.UndecidedMove | app.py:21 | When check_win answers None against the computer, the click places the mark and hands out the 0.1 reward. |
| Game.ContinuingMove | app.py:20-30 | With the intended transition, a move after which the game is in progress records nothing and hands out nothing. |
| Game.MaskedWinSetupTurns | app.py:18-19 | The first finding's starting position has two marks each with X to move, so it satisfies the turn invariant. |
| Game.MaskedWinMove | app.py:18 | X's click at (2, 2) in that position is free and completes the bottom row. |
| Game.MaskedWinClick | app.py:20-22 | That click completes X's bottom row, yet as written it records no winner and hands out no reward. |
| Game.MaskedWinClickIntended | app.py:20-30 | That click, as intended, records X as winner and hands out 1. |
| Game.MaskedWinContinues | app.py:13-22 | As written, play goes on after X's unrecorded row: X (2, 2) and then O (1, 2) are free cells, check_win answers '.' after each and each click only places its mark, leaving X to move with both the middle and bottom rows filled. |
| Game.WrongCreditMove | app.py:18 | In that position (0, 0) is free and X's click there leaves the board Win.WrongCredit. |
| Game.WrongCreditClick | app.py:20-28 | X's click at (0, 0), as written, records O as the winner and hands the computer 0, although X also fills a line and completed it first. |
| Game.OpenSetupTurns | app.py:18-19 | The second finding's starting position has two X and one O with O to move, so it satisfies the turn invariant. |
| Game.OpenMove | app.py:18 | O's click at (0, 2) in that position is free and leaves cell (0, 1) free. |
| Game.OpenClick | app.py:20-30 | That click, as written, hands out the 0.1 reward while cell (0, 1) is still free. |
| Game.OpenClickIntended | app.py:20-30 | The board after that click is in progress, and as intended the click records no winner and hands out nothing. |

## Left out

- The learning agent (`Player`, `HumanPlayer`, `State`, with `chooseAction`, `feedReward` and `savePolicy`) is imported from `objects.py`, which is not part of this model. `feedReward(v)` followed by `savePolicy()` is emitted as the `reward` field of `Game.Step`.
- `computer_player` only asks that agent for a move and forwards it to `handle_click`. A computer move is a `ClickAt` event in the model.
- Streamlit rendering is left out because it is user interface:
  - `main`, the buttons, columns and expander;
  - the messages `st.success`, `st.warning` and `st.info` in `check_state`;
  - the `selected_opponent` label.
- The *New game* button is the `NewGame` event, which is `init(True)`.
- The opponent selector (`on_opponent_selected`) is the `SelectOpponent` event: the new opponent, then `init(True)`.
- Policy persistence (file I/O) and `random` are left out: they are I/O and nondeterminism.
- Floating-point rewards are Dafny `real` constants 1, 0 and 0.1.
- numpy is replaced by sequence operations: `np.full` by `Grid.EmptyBoard`, `np.transpose` by `Win.Transpose`, and `tolist` flattening by row-major indexing.
- Game.Init: the score dictionary after a full reset is only stated to sum to zero. It is `{X: 0, O: 0}`.
- Session fields unrelated to the game (`selected_opponent`) are not part of `Game.Session`.
- The reward is 1 when X wins and 0 when O wins, although the agent is the computer side. Whether that direction is intended cannot be judged without `objects.py`, so it is modelled as written and not claimed as a finding.

## Findings

| source | as written | input that shows it | evidently intended | confidence | as-written member | corrected member |
|---|---|---|---|---|---|---|
| app.py:80-85 | check_rows treats an all-'.' row or column as uniform, so check_win answers '.' before looking at later lines, and handle_click then records no winner | Against the computer (O's moves are the computer player's choices), X plays (2, 0), O (1, 0), X (2, 1), O (1, 1), X (2, 2): X holds the bottom row, but the empty top row makes check_win answer '.' (the opening is Game.MaskedWinOpening) | A completed line of X or O ends the game with that winner and the reward 1 or 0 | high, not executed | Game.MaskedWinClick | Game.ClickIntended |
| app.py:80-85 | the masked win lets play go on, and check_win then names the mark of the first filled line in its order, not the player who completed a line first; handle_click records that mark and check_state (app.py:73) scores it | From the first row's position after X (2, 2), O plays (1, 2), still answered '.', then X plays (0, 0): check_win answers O, O is recorded and the agent is fed 0 (the continuation is Game.MaskedWinContinues) | The game ends at X's (2, 2) with X as winner, as Game.MaskedWinClickIntended states | high, not executed | Game.WrongCreditClick | Game.ClickIntended |
| app.py:20-30 | a None answer of check_win passes the test `winner != "."`, so the draw reward 0.1 is fed and the policy saved after a move that ends nothing | Against the computer (O's moves are the computer player's choices), X plays (0, 0), O (1, 2), X (2, 1), O (0, 2): no line is uniform, cells remain free, and the agent is fed 0.1 (the opening is Game.OpenOpening) | A reward only when the game has ended, 0.1 only for a full board without a winner | high, not executed | Game.OpenClick | Game.ClickIntended |

The session model (`Game.Click`, `Game.Run`) keeps the behaviour as written. `Game.ClickIntended` together with `Win.Evaluate` is the corrected transition, with its intended properties stated in `Game.AcceptIntended`.
