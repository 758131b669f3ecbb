/**
 * Four-in-a-row detection: the full-board scan of `winning_move` and the
 * run counting of `check_winner`, both tied to one definition, "some
 * four-cell window along one of the four axes lies in the grid and holds
 * only the piece".
 */
module Win {
  import opened Grid

  /**
   * The four axes a window can lie along. A window is named by its anchor
   * cell: its left end, or its top end for a vertical window; an
   * anti-diagonal window runs up and to the right from its bottom-left cell.
   */
  datatype Axis = Horizontal | Vertical | Diagonal | AntiDiagonal

  /** The cell k steps from (r, c) along the axis; k may be negative. */
  function Pos(a: Axis, r: int, c: int, k: int): (int, int) {
    match a
    case Horizontal => (r, c + k)
    case Vertical => (r + k, c)
    case Diagonal => (r + k, c + k)
    case AntiDiagonal => (r - k, c + k)
  }

  /** The cell i steps from (r, c), forward along the axis or backward against it. */
  function Along(a: Axis, r: int, c: int, i: int, forward: bool): (int, int) {
    Pos(a, r, c, if forward then i else -i)
  }

  lemma PosAdd(a: Axis, r: int, c: int, x: int, y: int)
    ensures Pos(a, Pos(a, r, c, x).0, Pos(a, r, c, x).1, y) == Pos(a, r, c, x + y)
  {
  }

  /**
   * The anchors that `winning_move` tries for each axis: rows RowLo <= r < RowHi
   * and columns 0 <= c < ColHi.
   */
  function RowLo(a: Axis): int {
    if a == AntiDiagonal then 3 else 0
  }

  function RowHi(a: Axis, rows: int): int {
    if a == Vertical || a == Diagonal then rows - 3 else rows
  }

  function ColHi(a: Axis, cols: int): int {
    if a == Vertical then cols else cols - 3
  }

  /** The window anchored at (r, c) along the axis lies inside the grid. */
  predicate Fits(g: Board, a: Axis, r: int, c: int)
    requires IsBoard(g)
  {
    RowLo(a) <= r < RowHi(a, |g|) && 0 <= c < ColHi(a, Width(g))
  }

  /** A window fits exactly when its first and last cells are in the grid. */
  lemma FitsIffEnds(g: Board, a: Axis, r: int, c: int)
    requires IsBoard(g)
    ensures Fits(g, a, r, c) <==> (InBounds(g, Pos(a, r, c, 0).0, Pos(a, r, c, 0).1)
                                   && InBounds(g, Pos(a, r, c, 3).0, Pos(a, r, c, 3).1))
  {
  }

  /** The cell at `pos` is in the grid and holds `p`. */
  predicate Matches(g: Board, pos: (int, int), p: int)
    requires IsBoard(g)
  {
    InBounds(g, pos.0, pos.1) && g[pos.0][pos.1] == p
  }

  /** The four cells of a window, from its anchor on. */
  function Window(g: Board, a: Axis, r: int, c: int): (w: seq<int>)
    requires IsBoard(g) && Fits(g, a, r, c)
    ensures |w| == WINDOW_LENGTH
    ensures forall i :: 0 <= i < 4 ==> InBounds(g, Pos(a, r, c, i).0, Pos(a, r, c, i).1)
                                         && w[i] == g[Pos(a, r, c, i).0][Pos(a, r, c, i).1]
  {
    seq(4, i requires 0 <= i < 4 => g[Pos(a, r, c, i).0][Pos(a, r, c, i).1])
  }

  predicate AllOf(w: seq<int>, p: int) {
    forall i :: 0 <= i < |w| ==> w[i] == p
  }

  /** The window anchored at (r, c) along the axis lies in the grid and holds only `p`. */
  predicate Four(g: Board, p: int, a: Axis, r: int, c: int)
    requires IsBoard(g)
  {
    Fits(g, a, r, c) && AllOf(Window(g, a, r, c), p)
  }

  /** `p` has four in a row somewhere on the board. */
  ghost predicate HasFour(g: Board, p: int)
    requires IsBoard(g)
  {
    exists a, r, c :: Four(g, p, a, r, c)
  }

  /** The inner loop of one block of `winning_move`: rows r, r + 1, ... of column c. */
  function ScanRows(g: Board, p: int, a: Axis, c: int, r: int): (found: bool)
    requires IsBoard(g) && 0 <= c < ColHi(a, Width(g)) && RowLo(a) <= r
    decreases RowHi(a, |g|) - r
    ensures found <==> exists r' :: r <= r' && Four(g, p, a, r', c)
  {
    if r >= RowHi(a, |g|) then false
    else
      assert Four(g, p, a, r, c) <==> AllOf(Window(g, a, r, c), p);
      AllOf(Window(g, a, r, c), p) || ScanRows(g, p, a, c, r + 1)
  }

  /** The outer loop of one block of `winning_move`: columns c, c + 1, ... */
  function ScanColumns(g: Board, p: int, a: Axis, c: int): (found: bool)
    requires IsBoard(g) && 0 <= c
    decreases ColHi(a, Width(g)) - c
    ensures found <==> exists r', c' :: c <= c' && Four(g, p, a, r', c')
  {
    if c >= ColHi(a, Width(g)) then false
    else
      assert forall r' :: Four(g, p, a, r', c) ==> RowLo(a) <= r';
      ScanRows(g, p, a, c, RowLo(a)) || ScanColumns(g, p, a, c + 1)
  }

  /**
   * `winning_move`: the horizontal, vertical, down-right and up-right blocks in
   * turn. Every cell it reads is inside the grid (the preconditions of Window).
   */
  function WinningMove(g: Board, p: int): (won: bool)
    requires IsBoard(g)
    ensures won <==> HasFour(g, p)
  {
    AxesCoverFour(g, p);
    ScanColumns(g, p, Horizontal, 0) || ScanColumns(g, p, Vertical, 0)
    || ScanColumns(g, p, Diagonal, 0) || ScanColumns(g, p, AntiDiagonal, 0)
  }

  lemma AxesCoverFour(g: Board, p: int)
    requires IsBoard(g)
    ensures HasFour(g, p) <==> ((exists r, c :: Four(g, p, Horizontal, r, c)) || (exists r, c :: Four(g, p, Vertical, r, c))
                                || (exists r, c :: Four(g, p, Diagonal, r, c)) || (exists r, c :: Four(g, p, AntiDiagonal, r, c)))
  {
    if HasFour(g, p) {
      var a, r, c :| Four(g, p, a, r, c);
      match a
      case Horizontal => assert Four(g, p, Horizontal, r, c);
      case Vertical => assert Four(g, p, Vertical, r, c);
      case Diagonal => assert Four(g, p, Diagonal, r, c);
      case AntiDiagonal => assert Four(g, p, AntiDiagonal, r, c);
    }
  }

  /** How far a walk from (r, c) in direction (dr, dc) can go before it leaves the grid. */
  function Reach(g: Board, r: int, c: int, dr: int, dc: int): int
    requires IsBoard(g)
  {
    if dr > 0 then |g| - r else if dr < 0 then r + 1 else if dc > 0 then Width(g) - c else c + 1
  }

  /**
   * The walk of `count_consecutive_tokens`: the number of cells holding `p`
   * met from (r, c) on, the origin included, in direction (dr, dc).
   */
  function RunLength(g: Board, r: int, c: int, dr: int, dc: int, p: int): nat
    requires IsBoard(g) && -1 <= dr <= 1 && -1 <= dc <= 1 && (dr != 0 || dc != 0)
    decreases Reach(g, r, c, dr, dc)
  {
    if InBounds(g, r, c) && g[r][c] == p then 1 + RunLength(g, r + dr, c + dc, dr, dc, p) else 0
  }

  /** The step of one move along the axis, or against it. */
  function StepRow(a: Axis, forward: bool): int {
    var d := match a case Horizontal => 0 case Vertical => 1 case Diagonal => 1 case AntiDiagonal => -1;
    if forward then d else -d
  }

  function StepCol(a: Axis, forward: bool): int {
    var d := match a case Horizontal => 1 case Vertical => 0 case Diagonal => 1 case AntiDiagonal => 1;
    if forward then d else -d
  }

  /** A run of at least k means: the first k cells along the walk all hold `p`. */
  lemma {:induction false} RunCovers(g: Board, r: int, c: int, p: int, a: Axis, forward: bool, k: nat)
    requires IsBoard(g)
    ensures RunLength(g, r, c, StepRow(a, forward), StepCol(a, forward), p) >= k
            <==> forall i :: 0 <= i < k ==> Matches(g, Along(a, r, c, i, forward), p)
    decreases k
  {
    var dr, dc := StepRow(a, forward), StepCol(a, forward);
    assert Along(a, r, c, 0, forward) == (r, c);
    if k > 0 && Matches(g, (r, c), p) {
      var r1, c1 := r + dr, c + dc;
      RunCovers(g, r1, c1, p, a, forward, k - 1);
      if forall i :: 0 <= i < k ==> Matches(g, Along(a, r, c, i, forward), p) {
        forall i | 0 <= i < k - 1
          ensures Matches(g, Along(a, r1, c1, i, forward), p)
        {
          AlongStep(a, r, c, forward, i);
        }
      }
      if RunLength(g, r1, c1, dr, dc, p) >= k - 1 {
        forall i | 0 <= i < k
          ensures Matches(g, Along(a, r, c, i, forward), p)
        {
          if i > 0 {
            AlongStep(a, r, c, forward, i - 1);
          }
        }
      }
    }
  }

  /** One step of the walk, then i more, is i + 1 steps from the start. */
  lemma AlongStep(a: Axis, r: int, c: int, forward: bool, i: int)
    ensures Along(a, r + StepRow(a, forward), c + StepCol(a, forward), i, forward) == Along(a, r, c, i + 1, forward)
  {
  }

  /** The four directions `check_winner` tries, in its order. */
  const Directions: seq<(int, int)> := [(0, 1), (1, 0), (1, 1), (1, -1)]

  /** The axis the k-th direction of `check_winner` walks along. */
  function AxisOf(k: int): Axis {
    if k == 0 then Horizontal else if k == 1 then Vertical else if k == 2 then Diagonal else AntiDiagonal
  }

  /** The window anchored j cells back from (r, c) on the axis holds only `p`. */
  predicate FourAt(g: Board, r: int, c: int, p: int, a: Axis, j: int)
    requires IsBoard(g)
  {
    Four(g, p, a, Along(a, r, c, j, false).0, Along(a, r, c, j, false).1)
  }

  /** Some window on the axis through (r, c) holds only `p`. */
  ghost predicate ThroughOnAxis(g: Board, r: int, c: int, p: int, a: Axis)
    requires IsBoard(g)
  {
    exists j :: 0 <= j < 4 && FourAt(g, r, c, p, a, j)
  }

  /** Some four-window through (r, c), along any axis, holds only `p`. */
  ghost predicate ThroughFour(g: Board, r: int, c: int, p: int)
    requires IsBoard(g)
  {
    exists a :: ThroughOnAxis(g, r, c, p, a)
  }

  /**
   * The runs forward and backward from (r, c), both counting the origin, add
   * up to at least five (four distinct cells) exactly when some window on the
   * axis through (r, c) holds only `p`.
   */
  lemma {:induction false} LineIff(g: Board, r: int, c: int, p: int, a: Axis)
    requires IsBoard(g)
    ensures RunLength(g, r, c, StepRow(a, true), StepCol(a, true), p)
            + RunLength(g, r, c, StepRow(a, false), StepCol(a, false), p) >= 5
            <==> ThroughOnAxis(g, r, c, p, a)
  {
    if RunLength(g, r, c, StepRow(a, true), StepCol(a, true), p)
       + RunLength(g, r, c, StepRow(a, false), StepCol(a, false), p) >= 5 {
      RunsGiveWindow(g, r, c, p, a);
    }
    if ThroughOnAxis(g, r, c, p, a) {
      WindowGivesRuns(g, r, c, p, a);
    }
  }

  lemma {:induction false} RunsGiveWindow(g: Board, r: int, c: int, p: int, a: Axis)
    requires IsBoard(g)
    requires RunLength(g, r, c, StepRow(a, true), StepCol(a, true), p)
             + RunLength(g, r, c, StepRow(a, false), StepCol(a, false), p) >= 5
    ensures ThroughOnAxis(g, r, c, p, a)
  {
    var f := RunLength(g, r, c, StepRow(a, true), StepCol(a, true), p);
    var b := RunLength(g, r, c, StepRow(a, false), StepCol(a, false), p);
    RunCovers(g, r, c, p, a, true, f);
    RunCovers(g, r, c, p, a, false, b);
    assert b >= 1;
    var j: int := if b - 1 < 3 then b - 1 else 3;
    var s := Along(a, r, c, j, false);
    forall i | 0 <= i < 4
      ensures Matches(g, Pos(a, s.0, s.1, i), p)
    {
      RunCell(g, r, c, p, a, f, b, j, i);
    }
    FitsIffEnds(g, a, s.0, s.1);
    assert Fits(g, a, s.0, s.1);
    assert AllOf(Window(g, a, s.0, s.1), p);
    assert FourAt(g, r, c, p, a, j);
  }

  /** The i-th cell of the window anchored j cells back from (r, c) lies on one of the two runs from (r, c). */
  lemma RunCell(g: Board, r: int, c: int, p: int, a: Axis, f: int, b: int, j: int, i: int)
    requires IsBoard(g) && 0 <= j < b && 0 <= i < 4 && i - j < f
    requires forall t :: 0 <= t < f ==> Matches(g, Along(a, r, c, t, true), p)
    requires forall t :: 0 <= t < b ==> Matches(g, Along(a, r, c, t, false), p)
    ensures Matches(g, Pos(a, Along(a, r, c, j, false).0, Along(a, r, c, j, false).1, i), p)
  {
    PosAdd(a, r, c, -j, i);
    if i >= j {
      var t: int := i - j;
      assert Matches(g, Along(a, r, c, t, true), p);
    } else {
      var t: int := j - i;
      assert Matches(g, Along(a, r, c, t, false), p);
    }
  }

  lemma {:induction false} WindowGivesRuns(g: Board, r: int, c: int, p: int, a: Axis)
    requires IsBoard(g)
    requires ThroughOnAxis(g, r, c, p, a)
    ensures RunLength(g, r, c, StepRow(a, true), StepCol(a, true), p)
            + RunLength(g, r, c, StepRow(a, false), StepCol(a, false), p) >= 5
  {
    var j :| 0 <= j < 4 && FourAt(g, r, c, p, a, j);
    forall i | 0 <= i < 4 - j
      ensures Matches(g, Along(a, r, c, i, true), p)
    {
      WindowCell(g, r, c, p, a, j, i);
    }
    RunCovers(g, r, c, p, a, true, 4 - j);
    forall i | 0 <= i < j + 1
      ensures Matches(g, Along(a, r, c, i, false), p)
    {
      WindowCell(g, r, c, p, a, j, -i);
    }
    RunCovers(g, r, c, p, a, false, j + 1);
  }

  /** The cell m steps from (r, c) is one of the window anchored j cells back, so it holds `p`. */
  lemma WindowCell(g: Board, r: int, c: int, p: int, a: Axis, j: int, m: int)
    requires IsBoard(g) && 0 <= j < 4 && FourAt(g, r, c, p, a, j) && -j <= m < 4 - j
    ensures Matches(g, Pos(a, r, c, m), p)
  {
    var s := Along(a, r, c, j, false);
    assert Four(g, p, a, s.0, s.1);
    PosAdd(a, r, c, -j, m + j);
    assert Window(g, a, s.0, s.1)[m + j] == p;
  }

  /**
   * The test `check_winner` makes for its k-th direction: the two runs, each
   * counted without the origin (`count - 1`), add up to at least 3.
   */
  predicate DirectionWins(g: Board, r: int, c: int, p: int, k: int)
    requires IsBoard(g) && 0 <= k < 4
  {
    var (dr, dc) := Directions[k];
    (RunLength(g, r, c, dr, dc, p) - 1) + (RunLength(g, r, c, -dr, -dc, p) - 1) >= 3
  }

  /** The k-th test of `check_winner` succeeds exactly when a window on its axis through (r, c) holds only `p`. */
  lemma DirectionWinsIff(g: Board, r: int, c: int, p: int, k: int)
    requires IsBoard(g) && 0 <= k < 4
    ensures DirectionWins(g, r, c, p, k) <==> ThroughOnAxis(g, r, c, p, AxisOf(k))
  {
    LineIff(g, r, c, p, AxisOf(k));
  }

  /** The four directions of `check_winner` cover every axis. */
  lemma ThroughFourIffSomeDirection(g: Board, r: int, c: int, p: int)
    requires IsBoard(g)
    ensures ThroughFour(g, r, c, p) <==> exists k :: 0 <= k < 4 && ThroughOnAxis(g, r, c, p, AxisOf(k))
  {
    if ThroughFour(g, r, c, p) {
      var a :| ThroughOnAxis(g, r, c, p, a);
      var k := match a case Horizontal => 0 case Vertical => 1 case Diagonal => 2 case AntiDiagonal => 3;
      assert AxisOf(k) == a;
    }
  }

  /** The four tests of `check_winner` together decide whether a four runs through (r, c). */
  lemma ThroughFourIffDirectionWins(g: Board, r: int, c: int, p: int)
    requires IsBoard(g)
    ensures ThroughFour(g, r, c, p) <==> exists k :: 0 <= k < 4 && DirectionWins(g, r, c, p, k)
  {
    ThroughFourIffSomeDirection(g, r, c, p);
    forall k | 0 <= k < 4
      ensures DirectionWins(g, r, c, p, k) <==> ThroughOnAxis(g, r, c, p, AxisOf(k))
    {
      DirectionWinsIff(g, r, c, p, k);
    }
  }

  /**
   * A window through (r, c) holding only `p` is a four-in-a-row: whenever
   * `check_winner` succeeds, `winning_move` does too, and the cell at (r, c)
   * holds `p`.
   */
  lemma ThroughFourIsWin(g: Board, r: int, c: int, p: int)
    requires IsBoard(g) && ThroughFour(g, r, c, p)
    ensures HasFour(g, p) && WinningMove(g, p)
    ensures InBounds(g, r, c) && g[r][c] == p
  {
    var a :| ThroughOnAxis(g, r, c, p, a);
    var j :| 0 <= j < 4 && FourAt(g, r, c, p, a, j);
    var s := Along(a, r, c, j, false);
    assert Four(g, p, a, s.0, s.1);
    PosAdd(a, r, c, -j, j);
    assert Pos(a, s.0, s.1, j) == (r, c);
    assert Window(g, a, s.0, s.1)[j] == p;
  }
}
