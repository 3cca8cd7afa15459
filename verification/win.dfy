/** Win detection of app.py: `check_rows`, `check_diagonals`, `check_win`,
    and the evaluation the program evidently intends (`Evaluate`). */
module Win {
  import opened Wrappers
  import opened Grid

  /** `len(set(line)) == 1`: the line is non-empty and all its symbols are equal. */
  predicate Uniform(line: seq<Cell>) {
    |line| > 0 && forall k :: 0 <= k < |line| ==> line[k] == line[0]
  }

  /** `Uniform` is exactly the source's test that the line's set of symbols is a singleton. */
  lemma UniformIsSingletonSet(line: seq<Cell>)
    ensures Uniform(line) <==> |set x | x in line| == 1
  {
    var s := set x | x in line;
    if Uniform(line) {
      assert s == {line[0]};
    }
    if |s| == 1 && |line| > 0 {
      forall k | 0 <= k < |line|
        ensures line[k] == line[0]
      {
        assert line[k] in s;
        assert |s - {line[0]}| == 0;
        assert line[k] !in s - {line[0]};
      }
    }
  }

  /** Line k of g is the first uniform one. */
  ghost predicate FirstUniform(g: seq<seq<Cell>>, k: int) {
    0 <= k < |g| && Uniform(g[k]) && forall j :: 0 <= j < k ==> !Uniform(g[j])
  }

  /** `check_rows`: the first symbol of the first uniform line, `None` when no line is uniform. */
  function CheckRows(g: seq<seq<Cell>>): (r: Option<Cell>)
    ensures r.None? <==> forall k :: 0 <= k < |g| ==> !Uniform(g[k])
    ensures r.Some? ==> exists k :: FirstUniform(g, k) && r.value == g[k][0]
  {
    if |g| == 0 then None
    else if Uniform(g[0]) then
      assert FirstUniform(g, 0);
      Some(g[0][0])
    else
      var r := CheckRows(g[1..]);
      assert forall k :: 1 <= k < |g| ==> g[k] == g[1..][k - 1];
      assert forall k :: FirstUniform(g[1..], k) ==> FirstUniform(g, k + 1);
      r
  }

  /** Scanning two groups of lines in turn finds the same line as scanning them joined. */
  lemma {:induction false} CheckRowsAppend(g1: seq<seq<Cell>>, g2: seq<seq<Cell>>)
    ensures CheckRows(g1 + g2) == if CheckRows(g1).Some? then CheckRows(g1) else CheckRows(g2)
  {
    if |g1| > 0 {
      assert (g1 + g2)[0] == g1[0];
      assert (g1 + g2)[1..] == g1[1..] + g2;
      CheckRowsAppend(g1[1..], g2);
    } else {
      assert g1 + g2 == g2;
    }
  }

  /** The three rows of the board, as numpy iterates them. */
  function Rows(b: Board): (g: seq<seq<Cell>>)
    ensures |g| == 3
    ensures forall r :: 0 <= r < 3 ==> |g[r]| == 3
    ensures forall r, c :: OnBoard(r, c) ==> g[r][c] == b[Index(r, c)]
  {
    [b[0..3], b[3..6], b[6..9]]
  }

  /** Every line of g has as many cells as the first. */
  predicate Rectangular(g: seq<seq<Cell>>) {
    |g| > 0 && forall r :: 0 <= r < |g| ==> |g[r]| == |g[0]|
  }

  /** `np.transpose` of a rectangular grid. */
  function Transpose(g: seq<seq<Cell>>): (t: seq<seq<Cell>>)
    requires Rectangular(g)
    ensures |t| == |g[0]|
    ensures forall c :: 0 <= c < |t| ==> |t[c]| == |g|
  {
    seq(|g[0]|, c requires 0 <= c < |g[0]| => seq(|g|, r requires 0 <= r < |g| => g[r][c]))
  }

  /** Transposing twice gives back the grid, and the transpose swaps the two coordinates. */
  lemma TransposeInvolution(g: seq<seq<Cell>>)
    requires Rectangular(g) && |g[0]| > 0
    ensures Rectangular(Transpose(g))
    ensures forall r, c :: 0 <= r < |g| && 0 <= c < |g[0]| ==> Transpose(g)[c][r] == g[r][c]
    ensures Transpose(Transpose(g)) == g
  {
    var t := Transpose(g);
    var tt := Transpose(t);
    assert |tt| == |g|;
    forall r | 0 <= r < |g|
      ensures tt[r] == g[r]
    {
      assert |tt[r]| == |g[r]|;
    }
  }

  /** The grid has as many cells per line as lines. */
  predicate Square(g: seq<seq<Cell>>) {
    forall r :: 0 <= r < |g| ==> |g[r]| == |g|
  }

  /** `[board[i][i] for i in range(len(board))]`. */
  function MainDiagonal(g: seq<seq<Cell>>): (d: seq<Cell>)
    requires Square(g)
    ensures |d| == |g|
  {
    seq(|g|, i requires 0 <= i < |g| => g[i][i])
  }

  /** `[board[i][len(board) - i - 1] for i in range(len(board))]`. */
  function AntiDiagonal(g: seq<seq<Cell>>): (d: seq<Cell>)
    requires Square(g)
    ensures |d| == |g|
  {
    seq(|g|, i requires 0 <= i < |g| => g[i][|g| - i - 1])
  }

  /** `check_diagonals`: the main diagonal is tried first, then the anti-diagonal;
      it behaves as `check_rows` on the two diagonals taken as lines. */
  function CheckDiagonals(g: seq<seq<Cell>>): (r: Option<Cell>)
    requires Square(g)
    ensures r == CheckRows([MainDiagonal(g), AntiDiagonal(g)])
  {
    if Uniform(MainDiagonal(g)) then Some(g[0][0])
    else if Uniform(AntiDiagonal(g)) then Some(g[0][|g| - 1])
    else None
  }

  /** `check_win`: rows first, then the rows of the transpose (the columns), then the diagonals;
      any symbol found is returned, '.' included, since a one-character string is truthy. */
  function CheckWin(b: Board): Option<Cell> {
    var g := Rows(b);
    var rows := CheckRows(g);
    if rows.Some? then rows
    else
      var columns := CheckRows(Transpose(g));
      if columns.Some? then columns
      else CheckDiagonals(g)
  }

  /** The cells of the eight lines of the board, in the order `check_win` visits them:
      rows 0-2, columns 0-2, main diagonal, anti-diagonal. */
  const LineCells: seq<seq<nat>> := [
    [0, 1, 2], [3, 4, 5], [6, 7, 8],
    [0, 3, 6], [1, 4, 7], [2, 5, 8],
    [0, 4, 8], [2, 4, 6]]

  /** The eight lines `check_win` looks at, in its order. */
  function Lines(b: Board): (ls: seq<seq<Cell>>)
    ensures |ls| == 8
    ensures forall k :: 0 <= k < 8 ==> |ls[k]| == 3
    ensures forall k, t :: 0 <= k < 8 && 0 <= t < 3 ==> ls[k][t] == b[LineCells[k][t]]
  {
    var g := Rows(b);
    TransposeInvolution(g);
    g + Transpose(g) + [MainDiagonal(g), AntiDiagonal(g)]
  }

  /** `check_win` returns the first symbol of the first uniform line among the eight
      (which may be '.'), and `None` exactly when no line is uniform. */
  lemma {:induction false} CheckWinSearchOrder(b: Board)
    ensures CheckWin(b) == CheckRows(Lines(b))
    ensures CheckWin(b).None? <==> forall k :: 0 <= k < 8 ==> !Uniform(Lines(b)[k])
    ensures CheckWin(b).Some? ==> exists k :: FirstUniform(Lines(b), k) && CheckWin(b).value == Lines(b)[k][0]
  {
    var g := Rows(b);
    var diagonals := [MainDiagonal(g), AntiDiagonal(g)];
    CheckRowsAppend(g, Transpose(g));
    CheckRowsAppend(g + Transpose(g), diagonals);
    assert Lines(b) == g + Transpose(g) + diagonals;
  }

  /** The three cells of line k all hold `m`. */
  predicate LineOf(b: Board, k: nat, m: Cell)
    requires k < 8
  {
    b[LineCells[k][0]] == m && b[LineCells[k][1]] == m && b[LineCells[k][2]] == m
  }

  /** Some row, column or diagonal consists of three copies of `m`. */
  predicate HasLine(b: Board, m: Cell) {
    exists k :: 0 <= k < 8 && LineOf(b, k, m)
  }

  /** A line of the board is uniform exactly when its three cells hold its first symbol. */
  lemma UniformLine(b: Board, k: nat)
    requires k < 8
    ensures Uniform(Lines(b)[k]) <==> LineOf(b, k, Lines(b)[k][0])
  {
  }

  /** Soundness: when `check_win` names a player's mark, that mark fills a whole line. */
  lemma WinnerSound(b: Board, m: Cell)
    requires CheckWin(b) == Some(m) && m != Empty
    ensures HasLine(b, m)
  {
    CheckWinSearchOrder(b);
    var k :| FirstUniform(Lines(b), k) && m == Lines(b)[k][0];
    UniformLine(b, k);
  }

  /** None of the lines before line k has three equal cells. */
  predicate NoLineBefore(b: Board, k: nat)
    requires k <= 8
  {
    k == 0 || (NoLineBefore(b, k - 1) && !LineOf(b, k - 1, b[LineCells[k - 1][0]]))
  }

  /** Unfolds `NoLineBefore` into a statement about every earlier line. */
  lemma {:induction false} NoLineBeforeAll(b: Board, k: nat)
    requires k <= 8 && NoLineBefore(b, k)
    ensures forall l :: 0 <= l < k ==> !LineOf(b, l, b[LineCells[l][0]])
  {
    if k > 0 {
      NoLineBeforeAll(b, k - 1);
    }
  }

  /** `check_win` answers the symbol of the first line, in its order, whose three cells agree,
      '.' included, whatever lines follow. */
  lemma FirstLineAnswers(b: Board, k: nat, m: Cell)
    requires k < 8 && LineOf(b, k, m) && NoLineBefore(b, k)
    ensures CheckWin(b) == Some(m)
  {
    NoLineBeforeAll(b, k);
    forall j | 0 <= j < k
      ensures !Uniform(Lines(b)[j])
    {
      UniformLine(b, j);
    }
    CheckWinSearchOrder(b);
    UniformLine(b, k);
    var i :| FirstUniform(Lines(b), i) && CheckWin(b).value == Lines(b)[i][0];
    assert i == k;
  }

  /** Line k is the first uniform line whose symbol is a mark. */
  predicate FirstMarkedAt(g: seq<seq<Cell>>, k: int) {
    0 <= k < |g| && Uniform(g[k]) && g[k][0] != Empty
    && forall j :: 0 <= j < k ==> !Uniform(g[j]) || g[j][0] == Empty
  }

  /** The first symbol of the first uniform line whose symbol is a mark; all-'.' lines are skipped. */
  function FirstMarked(g: seq<seq<Cell>>): (r: Option<Cell>)
    ensures r.Some? ==> exists k :: FirstMarkedAt(g, k) && g[k][0] == r.value
    ensures r.None? <==> forall k :: 0 <= k < |g| && Uniform(g[k]) ==> g[k][0] == Empty
  {
    if |g| == 0 then None
    else if Uniform(g[0]) && g[0][0] != Empty then
      assert FirstMarkedAt(g, 0);
      Some(g[0][0])
    else
      assert forall k :: 1 <= k < |g| ==> g[k] == g[1..][k - 1];
      assert forall k :: FirstMarkedAt(g[1..], k) ==> FirstMarkedAt(g, k + 1);
      var r := FirstMarked(g[1..]);
      r
  }

  /** Whenever `check_rows` does not stop on an all-'.' line, it agrees with `FirstMarked`. */
  lemma {:induction false} CheckRowsAgreesWithFirstMarked(g: seq<seq<Cell>>)
    requires CheckRows(g) != Some(Empty)
    ensures CheckRows(g) == FirstMarked(g)
  {
    if |g| > 0 && !Uniform(g[0]) {
      CheckRowsAgreesWithFirstMarked(g[1..]);
    }
  }

  /** The outcome of a board as the game intends it. */
  datatype Outcome = InProgress | Won(mark: Mark) | Draw

  /** Line k holds three copies of `m`, and no earlier line holds three copies of a mark. */
  predicate FirstFilled(b: Board, k: nat, m: Cell)
    requires k < 8
  {
    LineOf(b, k, m) && forall j :: 0 <= j < k ==> !LineOf(b, j, X) && !LineOf(b, j, O)
  }

  /** The evaluation the program evidently intends: the mark of the first line (in `check_win`'s
      order) made of three copies of one mark; otherwise a draw when no cell is free. */
  function Evaluate(b: Board): (o: Outcome)
    ensures o.Won? ==> HasLine(b, o.mark)
    ensures o.Won? ==> exists k :: 0 <= k < 8 && FirstFilled(b, k, o.mark)
    ensures o.Won? <==> HasLine(b, X) || HasLine(b, O)
    ensures o.Draw? <==> !HasLine(b, X) && !HasLine(b, O) && Count(b, Empty) == 0
    ensures o.InProgress? <==> !HasLine(b, X) && !HasLine(b, O) && Count(b, Empty) > 0
  {
    var ls := Lines(b);
    var found := FirstMarked(ls);
    forall k, m | 0 <= k < 8 && m != Empty && LineOf(b, k, m)
      ensures found.Some?
    {
      UniformLine(b, k);
    }
    if found.Some? then
      var k :| FirstMarkedAt(ls, k) && ls[k][0] == found.value;
      UniformLine(b, k);
      forall j | 0 <= j < k
        ensures !LineOf(b, j, X) && !LineOf(b, j, O)
      {
        UniformLine(b, j);
      }
      assert FirstFilled(b, k, found.value);
      Won(found.value)
    else if Count(b, Empty) == 0 then Draw
    else InProgress
  }

  /** The board holds `cells`, read row-major. */
  predicate Shows(b: Board, cells: seq<Cell>) {
    |cells| == 9 && forall k :: 0 <= k < 9 ==> b[k] == cells[k]
  }

  /** X has completed the bottom row while the top row is still empty. */
  const MaskedWin: seq<Cell> := [Empty, Empty, Empty, O, O, Empty, X, X, X]

  /** As written, `check_win` reports '.' for a board on which X has three in a row,
      where the intended evaluation reports X's win. */
  lemma CheckWinMasksWin(b: Board)
    requires Shows(b, MaskedWin)
    ensures HasLine(b, X) && !HasLine(b, O)
    ensures CheckWin(b) == Some(Empty)
    ensures Evaluate(b) == Won(X)
  {
    assert LineOf(b, 2, X);
    FirstLineAnswers(b, 0, Empty);
    forall k | 0 <= k < 8
      ensures !LineOf(b, k, O)
    {
    }
  }

  /** X has completed the bottom row and then taken a corner, after O completed the middle row. */
  const WrongCredit: seq<Cell> := [X, Empty, Empty, O, O, O, X, X, X]

  /** As written, `check_win` names O on a board where X also fills a line: the middle row
      comes before the bottom row in its order, whoever completed a line first. */
  lemma CheckWinCreditsO(b: Board)
    requires Shows(b, WrongCredit)
    ensures HasLine(b, X) && HasLine(b, O)
    ensures CheckWin(b) == Some(O)
  {
    assert LineOf(b, 2, X) && LineOf(b, 1, O);
    assert NoLineBefore(b, 0) && b[1] != b[0];
    FirstLineAnswers(b, 1, O);
  }

  /** No line is uniform while five cells are still free. */
  const Open: seq<Cell> := [X, Empty, O, Empty, Empty, O, Empty, X, Empty]

  /** A cell holding `c` makes the count of `c` positive. */
  lemma {:induction false} CountPositive(s: seq<Cell>, k: nat, c: Cell)
    requires k < |s| && s[k] == c
    ensures Count(s, c) > 0
  {
    if k > 0 {
      CountPositive(s[1..], k - 1, c);
    }
  }

  lemma OpenLines(b: Board)
    requires Shows(b, Open)
    ensures forall k :: 0 <= k < 8 ==> !Uniform(Lines(b)[k])
    ensures !HasLine(b, X) && !HasLine(b, O)
  {
    forall k | 0 <= k < 8
      ensures !Uniform(Lines(b)[k])
      ensures !LineOf(b, k, X) && !LineOf(b, k, O)
    {
      UniformLine(b, k);
    }
  }

  /** As written, `check_win` answers `None` on a board whose game is not over. */
  lemma CheckWinNoneMidGame(b: Board)
    requires Shows(b, Open)
    ensures CheckWin(b).None?
  {
    OpenLines(b);
    CheckWinSearchOrder(b);
  }

  /** The intended evaluation reports the same board as a game in progress. */
  lemma OpenInProgress(b: Board)
    requires Shows(b, Open)
    ensures Evaluate(b) == InProgress
  {
    OpenLines(b);
    CountPositive(b, 1, Empty);
  }

  /** Where `check_win` does not answer '.', it names the intended winner, and `None`
      exactly when the intended outcome is not a win. */
  lemma CheckWinAgreesWithEvaluate(b: Board)
    requires CheckWin(b) != Some(Empty)
    ensures CheckWin(b).None? <==> !Evaluate(b).Won?
    ensures Evaluate(b).Won? ==> CheckWin(b) == Some(Evaluate(b).mark)
  {
    CheckWinSearchOrder(b);
    CheckRowsAgreesWithFirstMarked(Lines(b));
  }
}
