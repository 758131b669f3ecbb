/**
 * The heuristic of `score_position` and `evaluate_window`: a weight on the
 * centre column plus a table score for every four-cell window of the board.
 */
module Evaluator {
  import opened Grid
  import opened Win

  /** `window.count(x)`. */
  function Count(w: seq<int>, x: int): (n: nat)
    ensures n <= |w|
  {
    if w == [] then 0 else (if w[0] == x then 1 else 0) + Count(w[1..], x)
  }

  /** The piece `evaluate_window` scores against: PLAYER_PIECE for the bot, BOT_PIECE otherwise. */
  function Opponent(piece: int): int {
    if piece == BOT_PIECE then PLAYER_PIECE else BOT_PIECE
  }

  /**
   * `evaluate_window`: +100 for four own pieces, else +5 for three own and one
   * empty, else +2 for two own and two empty; independently -4 when the
   * opponent has three and one cell is empty.
   */
  function EvaluateWindow(w: seq<int>, piece: int): (score: int)
    ensures -4 <= score <= 100
  {
    var own := Count(w, piece);
    var empty := Count(w, EMPTY);
    var bonus := if own == 4 then 100
                 else if own == 3 && empty == 1 then 5
                 else if own == 2 && empty == 2 then 2
                 else 0;
    bonus + (if Count(w, Opponent(piece)) == 3 && empty == 1 then -4 else 0)
  }

  lemma {:induction false} CountSplit(w: seq<int>, x: int, y: int, z: int)
    requires x != y && y != z && x != z
    ensures Count(w, x) + Count(w, y) + Count(w, z) <= |w|
  {
    if w != [] {
      CountSplit(w[1..], x, y, z);
    }
  }

  lemma {:induction false} CountAll(w: seq<int>, x: int)
    ensures Count(w, x) == |w| <==> AllOf(w, x)
  {
    if w != [] {
      CountAll(w[1..], x);
      assert AllOf(w, x) <==> w[0] == x && AllOf(w[1..], x) by {
        if w[0] == x && AllOf(w[1..], x) {
          forall i | 0 <= i < |w| ensures w[i] == x {
            if i > 0 { assert w[i] == w[1..][i - 1]; }
          }
        }
      }
    }
  }

  /**
   * On a four-cell window of a real piece the table gives exactly one entry:
   * 100 for four own pieces, 5 and 2 for the open threes and twos, -4 for an
   * opponent's open three, 0 for anything else.
   */
  lemma WindowScoreTable(w: seq<int>, piece: int)
    requires |w| == WINDOW_LENGTH && (piece == PLAYER_PIECE || piece == BOT_PIECE)
    ensures EvaluateWindow(w, piece) == 100 <==> AllOf(w, piece)
    ensures EvaluateWindow(w, piece) == 5 <==> Count(w, piece) == 3 && Count(w, EMPTY) == 1
    ensures EvaluateWindow(w, piece) == 2 <==> Count(w, piece) == 2 && Count(w, EMPTY) == 2
    ensures EvaluateWindow(w, piece) == -4 <==> Count(w, Opponent(piece)) == 3 && Count(w, EMPTY) == 1
    ensures EvaluateWindow(w, piece) in {100, 5, 2, 0, -4}
  {
    CountSplit(w, piece, Opponent(piece), EMPTY);
    CountAll(w, piece);
  }

  /** The number of outer and inner iterations of the loops over one axis in `score_position`. */
  function OuterCount(a: Axis, rows: int, cols: int): nat {
    var n := match a
      case Horizontal => rows
      case Vertical => cols
      case Diagonal => rows - 3
      case AntiDiagonal => rows - 3;
    if n < 0 then 0 else n
  }

  function InnerCount(a: Axis, rows: int, cols: int): nat {
    var n := if a == Vertical then rows - 3 else cols - 3;
    if n < 0 then 0 else n
  }

  /**
   * The window visited at outer index o and inner index i: rows then columns
   * for the horizontal, down-right and up-right blocks, columns then rows for
   * the vertical block; an up-right window starts three rows below its row index.
   */
  function Anchor(a: Axis, o: int, i: int): (int, int) {
    match a
    case Horizontal => (o, i)
    case Vertical => (i, o)
    case Diagonal => (o, i)
    case AntiDiagonal => (o + 3, i)
  }

  lemma AnchorFits(g: Board, a: Axis, o: int, i: int)
    requires IsBoard(g)
    requires 0 <= o < OuterCount(a, |g|, Width(g)) && 0 <= i < InnerCount(a, |g|, Width(g))
    ensures Fits(g, a, Anchor(a, o, i).0, Anchor(a, o, i).1)
  {
  }

  /** Conversely, every window that lies inside the grid is visited by the loops of its axis. */
  lemma AnchorCovers(g: Board, a: Axis, r: int, c: int)
    requires IsBoard(g) && Fits(g, a, r, c)
    ensures exists o, i :: 0 <= o < OuterCount(a, |g|, Width(g)) && 0 <= i < InnerCount(a, |g|, Width(g))
                          && Anchor(a, o, i) == (r, c)
  {
    var rows, cols := |g|, Width(g);
    match a
    case Horizontal =>
      assert 0 <= r < OuterCount(a, rows, cols) && 0 <= c < InnerCount(a, rows, cols) && Anchor(a, r, c) == (r, c);
    case Vertical =>
      assert 0 <= c < OuterCount(a, rows, cols) && 0 <= r < InnerCount(a, rows, cols) && Anchor(a, c, r) == (r, c);
    case Diagonal =>
      assert 0 <= r < OuterCount(a, rows, cols) && 0 <= c < InnerCount(a, rows, cols) && Anchor(a, r, c) == (r, c);
    case AntiDiagonal =>
      assert 0 <= r - 3 < OuterCount(a, rows, cols) && 0 <= c < InnerCount(a, rows, cols) && Anchor(a, r - 3, c) == (r, c);
  }

  /** No window is visited twice: distinct loop indices give distinct anchors. */
  lemma AnchorInjective(a: Axis, o: int, i: int, o': int, i': int)
    ensures Anchor(a, o, i) == Anchor(a, o', i') <==> o == o' && i == i'
  {
  }

  /** The window of the loops at outer index o and inner index i. */
  function LoopWindow(g: Board, a: Axis, o: int, i: int): (w: seq<int>)
    requires IsBoard(g)
    requires 0 <= o < OuterCount(a, |g|, Width(g)) && 0 <= i < InnerCount(a, |g|, Width(g))
  {
    AnchorFits(g, a, o, i);
    Window(g, a, Anchor(a, o, i).0, Anchor(a, o, i).1)
  }

  /** The window scores of inner indices 0 .. i-1 at outer index o. */
  function RowSum(g: Board, piece: int, a: Axis, o: int, i: int): int
    requires IsBoard(g)
    requires 0 <= o < OuterCount(a, |g|, Width(g)) && 0 <= i <= InnerCount(a, |g|, Width(g))
    decreases i
  {
    if i == 0 then 0
    else RowSum(g, piece, a, o, i - 1) + EvaluateWindow(LoopWindow(g, a, o, i - 1), piece)
  }

  /** The window scores of outer indices 0 .. o-1. */
  function AxisSum(g: Board, piece: int, a: Axis, o: int): int
    requires IsBoard(g) && 0 <= o <= OuterCount(a, |g|, Width(g))
    decreases o
  {
    if o == 0 then 0
    else AxisSum(g, piece, a, o - 1) + RowSum(g, piece, a, o - 1, InnerCount(a, |g|, Width(g)))
  }

  /** The window scores of every window along the axis. */
  function AxisScore(g: Board, piece: int, a: Axis): int
    requires IsBoard(g)
  {
    AxisSum(g, piece, a, OuterCount(a, |g|, Width(g)))
  }

  /** The cells of column c, top to bottom. */
  function Column(g: Board, c: int): (col: seq<int>)
    requires IsBoard(g) && 0 <= c < Width(g)
    ensures |col| == |g| && forall r :: 0 <= r < |g| ==> col[r] == g[r][c]
  {
    seq(|g|, r requires 0 <= r < |g| => g[r][c])
  }

  /**
   * The specification of `score_position`: three points per `piece` in the
   * centre column `COLUMN_COUNT // 2`, plus the score of every horizontal,
   * vertical, down-right and up-right window.
   */
  function Score(g: Board, piece: int): int
    requires IsBoard(g)
  {
    3 * Count(Column(g, Width(g) / 2), piece)
    + AxisScore(g, piece, Horizontal) + AxisScore(g, piece, Vertical)
    + AxisScore(g, piece, Diagonal) + AxisScore(g, piece, AntiDiagonal)
  }

  lemma {:induction false} RowSumBounds(g: Board, piece: int, a: Axis, o: int, i: int)
    requires IsBoard(g)
    requires 0 <= o < OuterCount(a, |g|, Width(g)) && 0 <= i <= InnerCount(a, |g|, Width(g))
    ensures -4 * i <= RowSum(g, piece, a, o, i) <= 100 * i
    decreases i
  {
    if i > 0 {
      RowSumBounds(g, piece, a, o, i - 1);
    }
  }

  lemma {:induction false} AxisSumBounds(g: Board, piece: int, a: Axis, o: int)
    requires IsBoard(g) && 0 <= o <= OuterCount(a, |g|, Width(g))
    ensures -4 * (o * InnerCount(a, |g|, Width(g))) <= AxisSum(g, piece, a, o)
                                                    <= 100 * (o * InnerCount(a, |g|, Width(g)))
    decreases o
  {
    if o > 0 {
      var n := InnerCount(a, |g|, Width(g));
      AxisSumBounds(g, piece, a, o - 1);
      RowSumBounds(g, piece, a, o - 1, n);
      assert o * n == (o - 1) * n + n;
    }
  }

  lemma AxisWindowsAtMostCells(g: Board, a: Axis)
    requires IsBoard(g)
    ensures 0 <= OuterCount(a, |g|, Width(g)) * InnerCount(a, |g|, Width(g)) <= |g| * Width(g)
  {
    var rows, cols := |g|, Width(g);
    var o, n := OuterCount(a, rows, cols), InnerCount(a, rows, cols);
    match a
    case Horizontal =>
      assert o == rows && n <= cols;
      MulMonotone(rows, n, cols);
    case Vertical =>
      assert o == cols && n <= rows;
      MulMonotone(cols, n, rows);
    case _ =>
      assert o <= rows && n <= cols;
      MulMonotone(o, n, cols);
      MulMonotone(cols, o, rows);
  }

  lemma MulMonotone(x: nat, y: nat, z: nat)
    requires y <= z
    ensures x * y <= x * z
  {
  }

  /**
   * Every score lies between -16 and 400 points per cell (plus 3 per row for
   * the centre column): there are at most four windows per cell.
   */
  lemma ScoreBounds(g: Board, piece: int)
    requires IsBoard(g)
    ensures -16 * (|g| * Width(g)) <= Score(g, piece) <= 3 * |g| + 400 * (|g| * Width(g))
  {
    var cells := |g| * Width(g);
    forall a: Axis
      ensures -4 * cells <= AxisScore(g, piece, a) <= 100 * cells
    {
      AxisSumBounds(g, piece, a, OuterCount(a, |g|, Width(g)));
      AxisWindowsAtMostCells(g, a);
    }
    assert Count(Column(g, Width(g) / 2), piece) <= |g|;
  }
}
