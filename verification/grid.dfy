/** The 3×3 board of app.py: cell symbols, the row-major layout, counting,
    and the enumeration of free cells (`check_available_moves`). */
module Grid {

  /** The symbol one cell holds: '.', 'X' or 'O'. */
  datatype Cell = Empty | X | O

  /** A player's mark: a symbol other than '.'. */
  type Mark = c: Cell | c != Empty witness X

  /** The board, read row-major as `board.tolist()` flattened: cell (r, c) is at index 3*r + c. */
  type Board = b: seq<Cell> | |b| == 9
    witness [Empty, Empty, Empty, Empty, Empty, Empty, Empty, Empty, Empty]

  /** `np.full((3, 3), '.')`. */
  const EmptyBoard: Board := [Empty, Empty, Empty, Empty, Empty, Empty, Empty, Empty, Empty]

  /** The row-major index of cell (r, c). */
  function Index(r: int, c: int): int {
    3 * r + c
  }

  predicate OnBoard(r: int, c: int) {
    0 <= r < 3 && 0 <= c < 3
  }

  /** (r, c) names a cell of the board that still holds '.'. */
  predicate FreeCoordinate(b: Board, r: int, c: int) {
    OnBoard(r, c) && b[Index(r, c)] == Empty
  }

  /** The number of cells of `s` holding `c`. */
  function Count(s: seq<Cell>, c: Cell): (n: nat)
    ensures n <= |s|
    ensures n == 0 <==> forall k :: 0 <= k < |s| ==> s[k] != c
  {
    if |s| == 0 then 0
    else
      assert forall k :: 1 <= k < |s| ==> s[k] == s[1..][k - 1];
      (if s[0] == c then 1 else 0) + Count(s[1..], c)
  }

  /** Every cell holds exactly one of the three symbols. */
  lemma {:induction false} CountPartition(s: seq<Cell>)
    ensures Count(s, Empty) + Count(s, X) + Count(s, O) == |s|
  {
    if |s| > 0 {
      CountPartition(s[1..]);
    }
  }

  /** A sequence holding only `c` counts `c` in every cell and nothing else. */
  lemma {:induction false} CountUniform(s: seq<Cell>, c: Cell, d: Cell)
    requires forall k :: 0 <= k < |s| ==> s[k] == c
    ensures Count(s, d) == (if d == c then |s| else 0)
  {
    if |s| > 0 {
      CountUniform(s[1..], c, d);
    }
  }

  /** Writing `v` at position `k` moves exactly one cell between the counts. */
  lemma {:induction false} CountUpdate(s: seq<Cell>, k: nat, v: Cell, c: Cell)
    requires k < |s|
    ensures Count(s[k := v], c) == Count(s, c) - (if s[k] == c then 1 else 0) + (if v == c then 1 else 0)
  {
    if k == 0 {
      assert s[k := v][1..] == s[1..];
    } else {
      assert s[k := v][1..] == s[1..][k - 1 := v];
      CountUpdate(s[1..], k - 1, v, c);
    }
  }

  /** The indices i in [k, 9) with b[i] == '.', in increasing order. */
  function FreeFrom(b: Board, k: nat): (r: seq<nat>)
    requires k <= 9
    ensures forall j :: 0 <= j < |r| ==> k <= r[j] < 9 && b[r[j]] == Empty
    ensures forall i :: k <= i < 9 && b[i] == Empty ==> i in r
    ensures forall j, l :: 0 <= j < l < |r| ==> r[j] < r[l]
    decreases 9 - k
  {
    if k == 9 then []
    else if b[k] == Empty then [k] + FreeFrom(b, k + 1)
    else FreeFrom(b, k + 1)
  }

  /** There are as many free indices from k on as '.' cells in b[k..]. */
  lemma {:induction false} FreeFromCount(b: Board, k: nat)
    requires k <= 9
    ensures |FreeFrom(b, k)| == Count(b[k..], Empty)
    decreases 9 - k
  {
    if k < 9 {
      assert b[k..][1..] == b[k + 1..];
      FreeFromCount(b, k + 1);
    }
  }

  /** `check_available_moves()`: the flat indices of the '.' cells. */
  function AvailableMoves(b: Board): (r: seq<nat>)
    ensures forall i :: i in r <==> 0 <= i < 9 && b[i] == Empty
    ensures forall j, l :: 0 <= j < l < |r| ==> r[j] < r[l]
    ensures |r| == Count(b, Empty)
  {
    assert b[0..] == b;
    FreeFromCount(b, 0);
    FreeFrom(b, 0)
  }

  /** `check_available_moves(extra=True)`: each free index i as the pair (i // 3, i % 3). */
  function AvailableCoords(b: Board): (r: seq<(int, int)>)
    ensures |r| == |AvailableMoves(b)|
    ensures forall k :: 0 <= k < |r| ==> r[k] == (AvailableMoves(b)[k] / 3, AvailableMoves(b)[k] % 3)
    ensures forall k :: 0 <= k < |r| ==> OnBoard(r[k].0, r[k].1) && Index(r[k].0, r[k].1) == AvailableMoves(b)[k]
  {
    var moves := AvailableMoves(b);
    seq(|moves|, k requires 0 <= k < |moves| => (moves[k] / 3, moves[k] % 3))
  }

  /** A pair is offered by `check_available_moves(extra=True)` exactly when it names a free cell. */
  lemma FreeCoordinateListed(b: Board, r: int, c: int)
    ensures (r, c) in AvailableCoords(b) <==> FreeCoordinate(b, r, c)
  {
    var moves := AvailableMoves(b);
    var coords := AvailableCoords(b);
    if (r, c) in coords {
      var k :| 0 <= k < |coords| && coords[k] == (r, c);
      var i := moves[k];
      assert i in moves;
      assert coords[k] == (i / 3, i % 3);
      assert OnBoard(r, c);
    }
    if FreeCoordinate(b, r, c) {
      var i := Index(r, c);
      assert i in moves;
      var k :| 0 <= k < |moves| && moves[k] == i;
      assert i / 3 == r && i % 3 == c;
      assert coords[k] == (r, c);
    }
  }
}
