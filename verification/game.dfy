/** The session of app.py as an explicit record, advanced by `init`, `handle_click`
    and the bookkeeping part of `check_state`. */
module Game {
  import opened Wrappers
  import opened Grid
  import opened Win

  /** The value of the opponent selector. */
  datatype Opponent = Computer | Human

  /** The game-related fields of the session state. `win` is the score dictionary,
      `winner` the recorded result of `check_win` (`None` when no winner is recorded). */
  datatype Session = Session(
    opponent: Opponent,
    win: map<Cell, nat>,
    board: Board,
    player: Mark,
    warning: bool,
    winner: Option<Cell>,
    over: bool)

  /** `win.get(c, 0)`. */
  function Tally(win: map<Cell, nat>, c: Cell): nat {
    if c in win then win[c] else 0
  }

  /** The sum of all scores the dictionary can hold. */
  function TallyTotal(win: map<Cell, nat>): nat {
    Tally(win, Empty) + Tally(win, X) + Tally(win, O)
  }

  /** `init(post_init)`: a fresh game; the opponent and the score are reset too unless `postInit`. */
  function Init(s: Session, postInit: bool): (r: Session)
    ensures forall k :: 0 <= k < 9 ==> r.board[k] == Empty
    ensures r.player == X && !r.warning && r.winner.None? && !r.over
    ensures postInit ==> r.opponent == s.opponent && r.win == s.win
    ensures !postInit ==> r.opponent == Human && TallyTotal(r.win) == 0
  {
    var opponent := if postInit then s.opponent else Human;
    var win := if postInit then s.win else map[X := 0, O := 0];
    Session(opponent, win, EmptyBoard, X, false, None, false)
  }

  /** A fresh game has nine free cells and no marks. */
  lemma InitCounts(s: Session, postInit: bool)
    ensures Count(Init(s, postInit).board, Empty) == 9
    ensures Count(Init(s, postInit).board, X) == 0 && Count(Init(s, postInit).board, O) == 0
  {
    var b := Init(s, postInit).board;
    CountUniform(b, Empty, Empty);
    CountUniform(b, Empty, X);
    CountUniform(b, Empty, O);
  }

  /** The session after a click, and the reward handed to the computer player, if any:
      `Some(v)` stands for `p1.feedReward(v)` followed by `p1.savePolicy()`. */
  datatype Step = Step(next: Session, reward: Option<real>)

  /** The reward for a `check_win` result other than '.': 1 for X, 0 for O, 0.1 for `None`. */
  function RewardFor(result: Option<Cell>): (v: real)
    requires result != Some(Empty)
    ensures v == 1.0 <==> result == Some(X)
    ensures v == 0.0 <==> result == Some(O)
    ensures v == 0.1 <==> result.None?
  {
    match result
    case Some(X) => 1.0
    case Some(O) => 0.0
    case _ => 0.1
  }

  /** The other player's mark. */
  function Toggle(m: Mark): (r: Mark)
    ensures r != m
  {
    if m == X then O else X
  }

  /** The session after the mover's mark is written at (i, j) and the turn passes, nothing recorded. */
  function Placed(s: Session, i: int, j: int): Session
    requires OnBoard(i, j)
  {
    s.(warning := false, board := s.board[Index(i, j) := s.player], player := Toggle(s.player))
  }

  /** The branch of `handle_click` that places a mark: the cell is free and no winner is recorded. */
  function Accept(s: Session, i: int, j: int): (r: Step)
    requires FreeCoordinate(s.board, i, j) && s.winner.None?
    // exactly the clicked cell changes, to the mark of the player whose turn it was
    ensures r.next.board[Index(i, j)] == s.player
    ensures forall k :: 0 <= k < 9 && k != Index(i, j) ==> r.next.board[k] == s.board[k]
    ensures Count(r.next.board, Empty) == Count(s.board, Empty) - 1
    // the turn passes, the warning clears, the score and the game-over flag stay
    ensures r.next.player != s.player && !r.next.warning
    ensures r.next.opponent == s.opponent && r.next.win == s.win && r.next.over == s.over
    // check_win's answer is recorded unless it is '.'
    ensures r.next.winner == (if CheckWin(r.next.board) == Some(Empty) then None else CheckWin(r.next.board))
    // a reward is issued only against the computer, and only when check_win did not answer '.'
    ensures r.reward.Some? <==> s.opponent == Computer && CheckWin(r.next.board) != Some(Empty)
    ensures r.reward.Some? ==>
      && (r.reward.value == 1.0 <==> CheckWin(r.next.board) == Some(X))
      && (r.reward.value == 0.0 <==> CheckWin(r.next.board) == Some(O))
      && (r.reward.value == 0.1 <==> CheckWin(r.next.board).None?)
  {
    CountUpdate(s.board, Index(i, j), s.player, Empty);
    var moved := Placed(s, i, j);
    var result := CheckWin(moved.board);
    if result != Some(Empty) then
      var decided := moved.(winner := result);
      if s.opponent == Computer then Step(decided, Some(RewardFor(result)))
      else Step(decided, None)
    else Step(moved, None)
  }

  /** `handle_click(i, j)`, as written. */
  function Click(s: Session, i: int, j: int): (r: Step)
    // a pair that is not a free cell only raises the warning
    ensures !FreeCoordinate(s.board, i, j) ==> r == Step(s.(warning := true), None)
    // a free cell clicked after a win changes nothing
    ensures FreeCoordinate(s.board, i, j) && s.winner.Some? ==> r == Step(s, None)
    // otherwise the mark is placed
    ensures FreeCoordinate(s.board, i, j) && s.winner.None? ==> r == Accept(s, i, j)
  {
    FreeCoordinateListed(s.board, i, j);
    if (i, j) !in AvailableCoords(s.board) then Step(s.(warning := true), None)
    else if s.winner.Some? then Step(s, None)
    else Accept(s, i, j)
  }

  /** A winner recorded by a click is a mark that fills a whole line of the new board. */
  lemma RecordedWinnerHasLine(s: Session, i: int, j: int)
    requires s.winner.None?
    ensures Click(s, i, j).next.winner.Some? ==>
      Click(s, i, j).next.winner.value != Empty && HasLine(Click(s, i, j).next.board, Click(s, i, j).next.winner.value)
  {
    if FreeCoordinate(s.board, i, j) {
      var next := Accept(s, i, j).next;
      if next.winner.Some? {
        WinnerSound(next.board, next.winner.value);
      }
    }
  }

  /** The state-changing part of `check_state`: a recorded winner ends the game and scores once;
      a full board without a winner ends it as a tie. */
  function CheckState(s: Session): (r: Session)
    ensures r.board == s.board && r.player == s.player && r.winner == s.winner
    ensures r.warning == s.warning && r.opponent == s.opponent
    ensures r.over <==> s.over || s.winner.Some? || Count(s.board, Empty) == 0
    ensures s.winner.Some? && !s.over ==>
      && Tally(r.win, s.winner.value) == Tally(s.win, s.winner.value) + 1
      && forall c :: c != s.winner.value ==> Tally(r.win, c) == Tally(s.win, c)
    ensures !(s.winner.Some? && !s.over) ==> r.win == s.win
  {
    if s.winner.Some? && !s.over then
      var w := s.winner.value;
      s.(over := true, win := s.win[w := Tally(s.win, w) + 1])
    else if |AvailableMoves(s.board)| == 0 && s.winner.None? then
      s.(over := true)
    else s
  }

  /** Running the bookkeeping twice changes nothing more: the score moves at most once. */
  lemma CheckStateIdempotent(s: Session)
    ensures CheckState(CheckState(s)) == CheckState(s)
    ensures TallyTotal(CheckState(CheckState(s)).win) <= TallyTotal(s.win) + 1
  {
  }

  /** What the user (or the computer player) can do to the session. */
  datatype Event =
    | ClickAt(i: int, j: int)      // a board button: handle_click(i, j)
    | Render                        // a page run: check_state()
    | NewGame                       // the 'New game' button: init(True)
    | SelectOpponent(choice: Opponent) // the selector writes the opponent, then init(True)

  function Apply(s: Session, e: Event): Session {
    match e
    case ClickAt(i, j) => Click(s, i, j).next
    case Render => CheckState(s)
    case NewGame => Init(s, true)
    case SelectOpponent(choice) => Init(s.(opponent := choice), true)
  }

  /** The session after the events, in order. */
  function Run(s: Session, events: seq<Event>): Session
    decreases |events|
  {
    if |events| == 0 then s else Run(Apply(s, events[0]), events[1..])
  }

  /** Turns alternate: X moves first, so X has as many marks as O or one more,
      and it is X's turn exactly when the counts are equal. No recorded winner is '.'. */
  predicate TurnInvariant(s: Session) {
    var xs := Count(s.board, X);
    var os := Count(s.board, O);
    && (xs == os || xs == os + 1)
    && (s.player == X <==> xs == os)
    && s.winner != Some(Empty)
  }

  /** Under the turn invariant it is X's turn exactly when an odd number of cells is free. */
  lemma TurnFromFreeCount(s: Session)
    requires TurnInvariant(s)
    ensures s.player == X <==> Count(s.board, Empty) % 2 == 1
  {
    CountPartition(s.board);
  }

  /** A fresh game satisfies the turn invariant: no marks, and X to move. */
  lemma InitTurns(s: Session, postInit: bool)
    ensures TurnInvariant(Init(s, postInit))
  {
    InitCounts(s, postInit);
  }

  /** An accepted click writes the mark whose turn it was, so the counts stay balanced. */
  lemma AcceptedClickKeepsTurns(s: Session, i: int, j: int)
    requires FreeCoordinate(s.board, i, j) && s.winner.None?
    requires TurnInvariant(s)
    ensures TurnInvariant(Click(s, i, j).next)
  {
    var next := Accept(s, i, j).next;
    var k := Index(i, j);
    assert next.board == s.board[k := s.player];
    CountUpdate(s.board, k, s.player, X);
    CountUpdate(s.board, k, s.player, O);
  }

  /** Any click keeps the turn invariant. */
  lemma ClickPreservesTurnInvariant(s: Session, i: int, j: int)
    requires TurnInvariant(s)
    ensures TurnInvariant(Click(s, i, j).next)
  {
    if FreeCoordinate(s.board, i, j) && s.winner.None? {
      AcceptedClickKeepsTurns(s, i, j);
    }
  }

  lemma ApplyPreservesTurnInvariant(s: Session, e: Event)
    requires TurnInvariant(s)
    ensures TurnInvariant(Apply(s, e))
  {
    match e
    case ClickAt(i, j) => ClickPreservesTurnInvariant(s, i, j);
    case Render =>
    case NewGame => InitTurns(s, true);
    case SelectOpponent(choice) => InitTurns(s.(opponent := choice), true);
  }

  lemma {:induction false} RunPreservesTurnInvariant(s: Session, events: seq<Event>)
    requires TurnInvariant(s)
    ensures TurnInvariant(Run(s, events))
    decreases |events|
  {
    if |events| > 0 {
      ApplyPreservesTurnInvariant(s, events[0]);
      RunPreservesTurnInvariant(Apply(s, events[0]), events[1..]);
    }
  }

  /** Every session reached from `init()` keeps the turn invariant. */
  lemma TurnInvariantFromInit(s: Session, events: seq<Event>)
    ensures TurnInvariant(Run(Init(s, false), events))
  {
    InitTurns(s, false);
    RunPreservesTurnInvariant(Init(s, false), events);
  }

  /** The events of one game: clicks and page runs, no restart. */
  predicate InGame(e: Event) {
    e.ClickAt? || e.Render?
  }

  /** One click or page run: the score plus one for an unfinished game never grows,
      and a recorded winner stays. */
  lemma InGameStep(s: Session, e: Event)
    requires InGame(e)
    ensures TallyTotal(Apply(s, e).win) + (if Apply(s, e).over then 0 else 1)
      <= TallyTotal(s.win) + (if s.over then 0 else 1)
    ensures s.winner.Some? ==> Apply(s, e).winner == s.winner
  {
    match e
    case ClickAt(i, j) =>
    case Render =>
  }

  /** Within one game the score grows by at most one, and not at all once the game is over;
      a recorded winner never changes. */
  lemma {:induction false} ScoreAtMostOncePerGame(s: Session, events: seq<Event>)
    requires forall k :: 0 <= k < |events| ==> InGame(events[k])
    ensures TallyTotal(Run(s, events).win) <= TallyTotal(s.win) + (if s.over then 0 else 1)
    ensures s.winner.Some? ==> Run(s, events).winner == s.winner
    decreases |events|
  {
    if |events| > 0 {
      InGameStep(s, events[0]);
      ScoreAtMostOncePerGame(Apply(s, events[0]), events[1..]);
    }
  }

  /** The placing branch as the program evidently intends it: the board is judged by `Evaluate`,
      a win is recorded, and the computer is rewarded only when the game has ended. */
  function AcceptIntended(s: Session, i: int, j: int): (r: Step)
    requires FreeCoordinate(s.board, i, j) && s.winner.None?
    ensures r.next.board == s.board[Index(i, j) := s.player]
    ensures r.next.player != s.player && !r.next.warning
    ensures r.next.opponent == s.opponent && r.next.win == s.win && r.next.over == s.over
    // a winner is recorded exactly when some line holds three copies of a mark, and it is that mark
    ensures r.next.winner.Some? <==> HasLine(r.next.board, X) || HasLine(r.next.board, O)
    ensures r.next.winner.Some? ==> r.next.winner.value != Empty && HasLine(r.next.board, r.next.winner.value)
    // the computer is rewarded exactly when the game has ended: 1 for an X win, 0 for an O win, 0.1 for a draw
    ensures r.reward.Some? <==>
      s.opponent == Computer
      && (HasLine(r.next.board, X) || HasLine(r.next.board, O) || Count(r.next.board, Empty) == 0)
    ensures r.reward.Some? ==>
      && (r.reward.value == 1.0 <==> r.next.winner == Some(X))
      && (r.reward.value == 0.0 <==> r.next.winner == Some(O))
      && (r.reward.value == 0.1 <==> r.next.winner.None?)
  {
    var moved := Placed(s, i, j);
    match Evaluate(moved.board)
    case InProgress => Step(moved, None)
    case Won(m) =>
      var decided := moved.(winner := Some(m));
      if s.opponent == Computer then Step(decided, Some(RewardFor(Some(m))))
      else Step(decided, None)
    case Draw =>
      if s.opponent == Computer then Step(moved, Some(RewardFor(None))) else Step(moved, None)
  }

  /** The click transition the program evidently intends; it differs from `Click` only in the placing branch. */
  function ClickIntended(s: Session, i: int, j: int): (r: Step)
    ensures !FreeCoordinate(s.board, i, j) ==> r == Step(s.(warning := true), None)
    ensures FreeCoordinate(s.board, i, j) && s.winner.Some? ==> r == Step(s, None)
    ensures FreeCoordinate(s.board, i, j) && s.winner.None? ==> r == AcceptIntended(s, i, j)
  {
    FreeCoordinateListed(s.board, i, j);
    if (i, j) !in AvailableCoords(s.board) then Step(s.(warning := true), None)
    else if s.winner.Some? then Step(s, None)
    else AcceptIntended(s, i, j)
  }

  /** A move after which `check_win` answers '.': the mark is placed, the turn passes, nothing else happens. */
  lemma QuietMove(s: Session, i: int, j: int)
    requires FreeCoordinate(s.board, i, j) && s.winner.None?
    requires CheckWin(s.board[Index(i, j) := s.player]) == Some(Empty)
    ensures Click(s, i, j) == Step(Placed(s, i, j), None)
  {
    assert Accept(s, i, j).next.board == s.board[Index(i, j) := s.player];
  }

  /** A move after which `check_win` answers `None` against the computer: the mark is placed
      and the computer is handed the draw reward. */
  lemma UndecidedMove(s: Session, i: int, j: int)
    requires FreeCoordinate(s.board, i, j) && s.winner.None? && s.opponent == Computer
    requires CheckWin(s.board[Index(i, j) := s.player]).None?
    ensures Click(s, i, j).next.board == s.board[Index(i, j) := s.player]
    ensures Click(s, i, j).reward == Some(0.1)
  {
  }

  /** A move after which the game goes on, as intended: the mark is placed and nothing is handed out. */
  lemma ContinuingMove(s: Session, i: int, j: int)
    requires FreeCoordinate(s.board, i, j) && s.winner.None?
    requires Evaluate(s.board[Index(i, j) := s.player]) == InProgress
    ensures ClickIntended(s, i, j).next.board == s.board[Index(i, j) := s.player]
    ensures ClickIntended(s, i, j).next.winner.None? && ClickIntended(s, i, j).reward.None?
  {
  }

  /** The board after X plays (2, 0), O (1, 0), X (2, 1) and O (1, 1) against the computer:
      every answer of `check_win` on the way is '.', because the top row is empty. */
  const MaskedWinSetup: Board := [Empty, Empty, Empty, O, O, Empty, X, X, Empty]

  /** The session is in the position `cells` against the computer, `player` to move, no winner. */
  predicate Position(s: Session, cells: seq<Cell>, player: Mark) {
    Shows(s.board, cells) && s.player == player && s.winner.None? && s.opponent == Computer
  }

  /** A position with as many X as O marks and X to move, or one X more and O to move,
      satisfies the turn invariant. */
  lemma SetupTurns(s: Session, cells: seq<Cell>)
    requires Shows(s.board, cells) && s.winner.None?
    requires var xs := Count(cells, X); var os := Count(cells, O);
      (xs == os && s.player == X) || (xs == os + 1 && s.player == O)
    ensures TurnInvariant(s)
  {
    assert s.board == cells;
  }

  /** A board showing `cells`, whose first uniform line k is all '.', makes `check_win` answer '.'. */
  lemma ShownQuiet(b: Board, cells: Board, k: nat)
    requires Shows(b, cells) && k < 8 && LineOf(cells, k, Empty) && NoLineBefore(cells, k)
    ensures CheckWin(b) == Some(Empty)
  {
    assert b == cells;
    FirstLineAnswers(b, k, Empty);
  }

  /** Placing the mover's mark at a free (i, j) of a board showing `before` shows `after`. */
  lemma PlacedShows(s: Session, i: int, j: int, before: Board, after: Board)
    requires Shows(s.board, before) && OnBoard(i, j) && before[Index(i, j)] == Empty
    requires after == before[Index(i, j) := s.player]
    ensures FreeCoordinate(s.board, i, j)
    ensures Shows(Placed(s, i, j).board, after) && Placed(s, i, j).player == Toggle(s.player)
    ensures Placed(s, i, j).winner == s.winner && Placed(s, i, j).opponent == s.opponent
  {
  }

  /** The boards on the way to `MaskedWinSetup`. */
  const MaskedWinAfter1: Board := [Empty, Empty, Empty, Empty, Empty, Empty, X, Empty, Empty]
  const MaskedWinAfter2: Board := [Empty, Empty, Empty, O, Empty, Empty, X, Empty, Empty]
  const MaskedWinAfter3: Board := [Empty, Empty, Empty, O, Empty, Empty, X, X, Empty]

  /** From a fresh game against the computer, X (2, 0), O (1, 0), X (2, 1), O (1, 1) reach
      `MaskedWinSetup`: each cell is free when clicked, and the top row stays empty, so every
      `check_win` answer on the way is '.' and, by `QuietMove`, each click only places its mark. */
  lemma MaskedWinOpening(s0: Session, s1: Session, s2: Session, s3: Session, s4: Session)
    requires Position(s0, EmptyBoard, X)
    requires s1 == Placed(s0, 2, 0) && s2 == Placed(s1, 1, 0) && s3 == Placed(s2, 2, 1) && s4 == Placed(s3, 1, 1)
    ensures FreeCoordinate(s0.board, 2, 0) && CheckWin(s1.board) == Some(Empty)
    ensures FreeCoordinate(s1.board, 1, 0) && CheckWin(s2.board) == Some(Empty)
    ensures FreeCoordinate(s2.board, 2, 1) && CheckWin(s3.board) == Some(Empty)
    ensures FreeCoordinate(s3.board, 1, 1) && CheckWin(s4.board) == Some(Empty)
    ensures Position(s4, MaskedWinSetup, X)
    ensures Click(s0, 2, 0) == Step(s1, None) && Click(s1, 1, 0) == Step(s2, None)
    ensures Click(s2, 2, 1) == Step(s3, None) && Click(s3, 1, 1) == Step(s4, None)
  {
    PlacedShows(s0, 2, 0, EmptyBoard, MaskedWinAfter1);
    PlacedShows(s1, 1, 0, MaskedWinAfter1, MaskedWinAfter2);
    PlacedShows(s2, 2, 1, MaskedWinAfter2, MaskedWinAfter3);
    PlacedShows(s3, 1, 1, MaskedWinAfter3, MaskedWinSetup);
    ShownQuiet(s1.board, MaskedWinAfter1, 0);
    ShownQuiet(s2.board, MaskedWinAfter2, 0);
    ShownQuiet(s3.board, MaskedWinAfter3, 0);
    ShownQuiet(s4.board, MaskedWinSetup, 0);
    QuietMove(s0, 2, 0);
    QuietMove(s1, 1, 0);
    QuietMove(s2, 2, 1);
    QuietMove(s3, 1, 1);
  }

  /** Two marks each and X to move: the position can arise from alternating play. */
  lemma MaskedWinSetupTurns(s: Session)
    requires Position(s, MaskedWinSetup, X)
    ensures TurnInvariant(s)
  {
    SetupTurns(s, MaskedWinSetup);
  }

  /** X completing the bottom row at (2, 2) leaves the board `MaskedWin`. */
  lemma MaskedWinMove(s: Session)
    requires Position(s, MaskedWinSetup, X)
    ensures FreeCoordinate(s.board, 2, 2)
    ensures Shows(s.board[Index(2, 2) := X], MaskedWin)
  {
  }

  /** X's move at (2, 2) from `MaskedWinSetup`, as written: `check_win` answers '.'. */
  lemma MaskedWinClick(s: Session)
    requires Position(s, MaskedWinSetup, X)
    ensures Click(s, 2, 2).next.board == s.board[Index(2, 2) := X]
    ensures HasLine(s.board[Index(2, 2) := X], X)
    ensures Click(s, 2, 2).next.winner.None? && Click(s, 2, 2).reward.None?
  {
    MaskedWinMove(s);
    CheckWinMasksWin(s.board[Index(2, 2) := X]);
    QuietMove(s, 2, 2);
  }

  /** X's move at (2, 2) from `MaskedWinSetup`, as intended: X's win is recorded and rewarded. */
  lemma MaskedWinClickIntended(s: Session)
    requires Position(s, MaskedWinSetup, X)
    ensures ClickIntended(s, 2, 2).next.winner == Some(X)
    ensures ClickIntended(s, 2, 2).reward == Some(1.0)
  {
    MaskedWinMove(s);
    CheckWinMasksWin(s.board[Index(2, 2) := X]);
    assert AcceptIntended(s, 2, 2).next.board == s.board[Index(2, 2) := X];
  }

  /** The board after X's unrecorded (2, 2) and O's (1, 2): both X and O fill a row. */
  const MaskedWinLater: Board := [Empty, Empty, Empty, O, O, O, X, X, X]

  /** As written, play goes on from `MaskedWinSetup`: X (2, 2) and then O (1, 2) are quiet clicks,
      because the top row is still empty. */
  lemma MaskedWinContinues(s4: Session, s5: Session, s6: Session)
    requires Position(s4, MaskedWinSetup, X)
    requires s5 == Placed(s4, 2, 2) && s6 == Placed(s5, 1, 2)
    ensures FreeCoordinate(s4.board, 2, 2) && CheckWin(s5.board) == Some(Empty)
    ensures FreeCoordinate(s5.board, 1, 2) && CheckWin(s6.board) == Some(Empty)
    ensures Position(s6, MaskedWinLater, X)
    ensures Click(s4, 2, 2) == Step(s5, None) && Click(s5, 1, 2) == Step(s6, None)
  {
    PlacedShows(s4, 2, 2, MaskedWinSetup, MaskedWin);
    PlacedShows(s5, 1, 2, MaskedWin, MaskedWinLater);
    ShownQuiet(s5.board, MaskedWin, 0);
    ShownQuiet(s6.board, MaskedWinLater, 0);
    QuietMove(s4, 2, 2);
    QuietMove(s5, 1, 2);
  }

  /** X taking the corner (0, 0) leaves the board `WrongCredit`. */
  lemma WrongCreditMove(s: Session)
    requires Position(s, MaskedWinLater, X)
    ensures FreeCoordinate(s.board, 0, 0)
    ensures Shows(s.board[Index(0, 0) := X], WrongCredit)
  {
  }

  /** X's click at (0, 0), as written, records O as the winner and hands the computer 0,
      although X completed the bottom row before O completed the middle row. */
  lemma WrongCreditClick(s: Session)
    requires Position(s, MaskedWinLater, X)
    ensures Click(s, 0, 0).next.board == s.board[Index(0, 0) := X]
    ensures HasLine(s.board[Index(0, 0) := X], X)
    ensures Click(s, 0, 0).next.winner == Some(O) && Click(s, 0, 0).reward == Some(0.0)
  {
    WrongCreditMove(s);
    CheckWinCreditsO(s.board[Index(0, 0) := X]);
    assert Accept(s, 0, 0).next.board == s.board[Index(0, 0) := X];
  }

  /** The board after X (0, 0), O (1, 2), X (2, 1) against the computer:
      every answer of `check_win` on the way is '.'. */
  const OpenSetup: Board := [X, Empty, Empty, Empty, Empty, O, Empty, X, Empty]

  /** The boards after X (0, 0) and after O (1, 2) on the way to `OpenSetup`. */
  const OpenAfter1: Board := [X, Empty, Empty, Empty, Empty, Empty, Empty, Empty, Empty]
  const OpenAfter2: Board := [X, Empty, Empty, Empty, Empty, O, Empty, Empty, Empty]

  /** After X (0, 0) the first uniform line is the all-'.' middle row. */
  lemma OpenAfter1Quiet(b: Board)
    requires Shows(b, OpenAfter1)
    ensures CheckWin(b) == Some(Empty)
  {
    ShownQuiet(b, OpenAfter1, 1);
  }

  /** After O (1, 2) the first uniform line is the all-'.' bottom row. */
  lemma OpenAfter2Quiet(b: Board)
    requires Shows(b, OpenAfter2)
    ensures CheckWin(b) == Some(Empty)
  {
    ShownQuiet(b, OpenAfter2, 2);
  }

  /** After X (2, 1) every row and column holds two symbols, the main diagonal too,
      and the first uniform line is the all-'.' anti-diagonal. */
  lemma OpenSetupQuiet(b: Board)
    requires Shows(b, OpenSetup)
    ensures CheckWin(b) == Some(Empty)
  {
    ShownQuiet(b, OpenSetup, 7);
  }

  /** From a fresh game against the computer, X (0, 0), O (1, 2), X (2, 1) reach `OpenSetup`:
      each cell is free when clicked, and the first uniform line is all '.' each time (the middle
      row, then the bottom row, then the anti-diagonal), so every `check_win` answer on the way
      is '.' and, by `QuietMove`, each click only places its mark. */
  lemma OpenOpening(s0: Session, s1: Session, s2: Session, s3: Session)
    requires Position(s0, EmptyBoard, X)
    requires s1 == Placed(s0, 0, 0) && s2 == Placed(s1, 1, 2) && s3 == Placed(s2, 2, 1)
    ensures FreeCoordinate(s0.board, 0, 0) && CheckWin(s1.board) == Some(Empty)
    ensures FreeCoordinate(s1.board, 1, 2) && CheckWin(s2.board) == Some(Empty)
    ensures FreeCoordinate(s2.board, 2, 1) && CheckWin(s3.board) == Some(Empty)
    ensures Position(s3, OpenSetup, O)
    ensures Click(s0, 0, 0) == Step(s1, None) && Click(s1, 1, 2) == Step(s2, None)
    ensures Click(s2, 2, 1) == Step(s3, None)
  {
    PlacedShows(s0, 0, 0, EmptyBoard, OpenAfter1);
    PlacedShows(s1, 1, 2, OpenAfter1, OpenAfter2);
    PlacedShows(s2, 2, 1, OpenAfter2, OpenSetup);
    OpenAfter1Quiet(s1.board);
    OpenAfter2Quiet(s2.board);
    OpenSetupQuiet(s3.board);
    QuietMove(s0, 0, 0);
    QuietMove(s1, 1, 2);
    QuietMove(s2, 2, 1);
  }

  /** Two X marks, one O mark and O to move: the position can arise from alternating play. */
  lemma OpenSetupTurns(s: Session)
    requires Position(s, OpenSetup, O)
    ensures TurnInvariant(s)
  {
    SetupTurns(s, OpenSetup);
  }

  /** O playing (0, 2) leaves the board `Open`. */
  lemma OpenMove(s: Session)
    requires Position(s, OpenSetup, O)
    ensures FreeCoordinate(s.board, 0, 2)
    ensures Shows(s.board[Index(0, 2) := O], Open)
    ensures FreeCoordinate(s.board[Index(0, 2) := O], 0, 1)
  {
  }

  /** O's move at (0, 2) from `OpenSetup`, as written: the draw reward is handed out although
      cell (0, 1) is still free. */
  lemma OpenClick(s: Session)
    requires Position(s, OpenSetup, O)
    ensures Click(s, 0, 2).next.board == s.board[Index(0, 2) := O]
    ensures FreeCoordinate(s.board[Index(0, 2) := O], 0, 1)
    ensures Click(s, 0, 2).reward == Some(0.1)
  {
    OpenMove(s);
    CheckWinNoneMidGame(s.board[Index(0, 2) := O]);
    UndecidedMove(s, 0, 2);
  }

  /** O's move at (0, 2) from `OpenSetup`, as intended: the game goes on and nothing is handed out. */
  lemma OpenClickIntended(s: Session)
    requires Position(s, OpenSetup, O)
    ensures Evaluate(s.board[Index(0, 2) := O]) == InProgress
    ensures ClickIntended(s, 0, 2).next.winner.None? && ClickIntended(s, 0, 2).reward.None?
  {
    OpenMove(s);
    OpenInProgress(s.board[Index(0, 2) := O]);
    ContinuingMove(s, 0, 2);
  }
}
