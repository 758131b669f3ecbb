/**
 * The value `minimax` computes, as a pair of mutually recursive functions.
 *
 * Two boards take part: `live` is the game's own board, whose open columns
 * and full-board test drive every node of the search (`is_valid_move` reads
 * the game's board, so `get_valid_locations` ignores its board argument and
 * `check_draw` takes none), and `b` is the hypothetical board
 * of the node, on which the wins are looked for and the drops are made.
 */
module Search {
  import opened Grid
  import opened Win
  import opened Evaluator

  /** The value of a four-in-a-row for the bot, and the initial incumbent. */
  const SENTINEL := 9999999

  /** The pair `minimax` returns: the chosen column (None at a leaf) and the value. */
  datatype Choice = Choice(column: Option<int>, value: int)

  function Max(x: int, y: int): int { if x >= y then x else y }

  function Min(x: int, y: int): int { if x <= y then x else y }

  /** x moved into the interval [lo, hi]. */
  function Clamp(lo: int, hi: int, x: int): int { if x < lo then lo else if x > hi then hi else x }

  /** The test of `is_terminal_node`: a win on the node's board, or a full live board. */
  predicate IsTerminal(live: Board, b: Board)
    requires IsBoard(live) && IsBoard(b)
  {
    WinningMove(b, BOT_PIECE) || WinningMove(b, PLAYER_PIECE) || Full(live)
  }

  /** A terminal node or depth 0: `minimax` returns without a column. */
  predicate IsLeaf(live: Board, b: Board, depth: nat)
    requires IsBoard(live) && IsBoard(b)
  {
    depth == 0 || IsTerminal(live, b)
  }

  /** The board is small enough that no heuristic score reaches the sentinel. */
  predicate SmallBoard(b: Board)
    requires IsBoard(b)
  {
    |b| * Width(b) <= 24000
  }

  /** The piece the node drops: the bot maximises, the player minimises. */
  function Mover(maximising: bool): int {
    if maximising then BOT_PIECE else PLAYER_PIECE
  }

  /** The incumbent `maximising` chooses between: strictly better values replace it. */
  function Better(maximising: bool, x: int, incumbent: int): bool {
    if maximising then x > incumbent else x < incumbent
  }

  lemma ScoreBelowSentinel(b: Board)
    requires IsBoard(b)
    ensures SmallBoard(b) ==> -SENTINEL <= Score(b, BOT_PIECE) <= SENTINEL
  {
    ScoreBounds(b, BOT_PIECE);
  }

  /**
   * `minimax(b, depth, alpha, beta, maximising)` with pruning. On a small board
   * every value lies within the sentinels.
   */
  function Value(live: Board, b: Board, depth: nat, alpha: int, beta: int, maximising: bool): (r: Choice)
    requires SameShape(live, b)
    decreases depth, 1, 0
    ensures IsLeaf(live, b, depth) ==> r.column.None?
    ensures r.column.Some? ==> r.column.value in ValidColumns(live)
    ensures SmallBoard(b) ==> -SENTINEL <= r.value <= SENTINEL
  {
    if IsTerminal(live, b) then
      if WinningMove(b, BOT_PIECE) then Choice(None, SENTINEL)
      else if WinningMove(b, PLAYER_PIECE) then Choice(None, -SENTINEL)
      else Choice(None, 0)
    else if depth == 0 then
      ScoreBelowSentinel(b);
      Choice(None, Score(b, BOT_PIECE))
    else
      var init := if maximising then -SENTINEL else SENTINEL;
      Scan(live, b, depth, ValidColumns(live), 0, alpha, beta, maximising, Choice(None, init))
  }

  /**
   * The column loop of a `minimax` node over the columns `cols[i..]`: a
   * column without an open row on the node's board is skipped; otherwise the
   * child value replaces the incumbent when strictly better, alpha (beta) is
   * raised (lowered) to the incumbent, and the loop stops once alpha >= beta.
   */
  function Scan(live: Board, b: Board, depth: nat, cols: seq<int>, i: nat, alpha: int, beta: int,
                maximising: bool, acc: Choice): (r: Choice)
    requires SameShape(live, b) && depth > 0 && i <= |cols|
    requires forall k :: 0 <= k < |cols| ==> 0 <= cols[k] < Width(b)
    decreases depth, 0, |cols| - i
    ensures r.column == acc.column || (r.column.Some? && r.column.value in cols[i..])
    ensures if maximising then r.value >= acc.value else r.value <= acc.value
    ensures SmallBoard(b) && -SENTINEL <= acc.value <= SENTINEL ==> -SENTINEL <= r.value <= SENTINEL
  {
    if i == |cols| then acc
    else
      var c := cols[i];
      match NextOpenRow(b, c)
      case None => Scan(live, b, depth, cols, i + 1, alpha, beta, maximising, acc)
      case Some(row) =>
        var child := Value(live, Place(b, row, c, Mover(maximising)), depth - 1, alpha, beta, !maximising).value;
        var acc' := if Better(maximising, child, acc.value) then Choice(Some(c), child) else acc;
        var alpha' := if maximising then Max(alpha, acc'.value) else alpha;
        var beta' := if maximising then beta else Min(beta, acc'.value);
        if alpha' >= beta' then acc'
        else Scan(live, b, depth, cols, i + 1, alpha', beta', maximising, acc')
  }

  /** A next column `cols[i]` without an open row on the node's board is passed over. */
  lemma ScanSkip(live: Board, b: Board, depth: nat, cols: seq<int>, i: nat, alpha: int, beta: int,
                 maximising: bool, acc: Choice)
    requires SameShape(live, b) && depth > 0
    requires forall k :: 0 <= k < |cols| ==> 0 <= cols[k] < Width(b)
    requires i < |cols| && NextOpenRow(b, cols[i]).None?
    ensures Scan(live, b, depth, cols, i, alpha, beta, maximising, acc)
         == Scan(live, b, depth, cols, i + 1, alpha, beta, maximising, acc)
  {
  }

  /**
   * A next column `cols[i]` with an open row, whose drop gives the board
   * `child`: the child value v decides the new incumbent and window, and the
   * scan stops or goes on with them.
   */
  lemma ScanDrop(live: Board, b: Board, depth: nat, cols: seq<int>, i: nat, alpha: int, beta: int,
                 maximising: bool, acc: Choice, row: int, child: Board, v: int,
                 acc': Choice, alpha': int, beta': int, stop: bool)
    requires SameShape(live, b) && depth > 0
    requires forall k :: 0 <= k < |cols| ==> 0 <= cols[k] < Width(b)
    requires i < |cols| && NextOpenRow(b, cols[i]) == Some(row)
    requires child == Place(b, row, cols[i], Mover(maximising))
    requires v == Value(live, child, depth - 1, alpha, beta, !maximising).value
    requires acc' == if Better(maximising, v, acc.value) then Choice(Some(cols[i]), v) else acc
    requires alpha' == if maximising then Max(alpha, acc'.value) else alpha
    requires beta' == if maximising then beta else Min(beta, acc'.value)
    requires stop == (alpha' >= beta')
    ensures Scan(live, b, depth, cols, i, alpha, beta, maximising, acc)
            == if stop then acc' else Scan(live, b, depth, cols, i + 1, alpha', beta', maximising, acc')
  {
  }

  /** A scan over columns none of which has an open row on the node's board keeps its incumbent. */
  lemma {:induction false} ScanAllSkipped(live: Board, b: Board, depth: nat, cols: seq<int>, i: nat, alpha: int,
                                          beta: int, maximising: bool, acc: Choice)
    requires SameShape(live, b) && depth > 0 && i <= |cols|
    requires forall k :: 0 <= k < |cols| ==> 0 <= cols[k] < Width(b)
    requires forall k :: i <= k < |cols| ==> NextOpenRow(b, cols[k]).None?
    decreases |cols| - i
    ensures Scan(live, b, depth, cols, i, alpha, beta, maximising, acc) == acc
  {
    if i < |cols| {
      ScanAllSkipped(live, b, depth, cols, i + 1, alpha, beta, maximising, acc);
    }
  }

  /**
   * The draw test reads the live board, so a node whose own board has no
   * empty cell and no four, below a live board that is not full, is no leaf:
   * every column is skipped and the node is worth its initial sentinel, with
   * no column chosen.
   */
  lemma FullCopyGivesSentinel(live: Board, b: Board, depth: nat, alpha: int, beta: int, maximising: bool)
    requires SameShape(live, b) && depth > 0 && !IsTerminal(live, b)
    requires forall r, c :: 0 <= r < |b| && 0 <= c < Width(b) ==> b[r][c] != EMPTY
    ensures Value(live, b, depth, alpha, beta, maximising)
         == Choice(None, if maximising then -SENTINEL else SENTINEL)
  {
    var init := if maximising then -SENTINEL else SENTINEL;
    var valid := ValidColumns(live);
    forall k | 0 <= k < |valid| ensures NextOpenRow(b, valid[k]).None? {
      var c := valid[k];
      assert forall r :: 0 <= r < |b| ==> b[r][c] != EMPTY;
    }
    ScanAllSkipped(live, b, depth, valid, 0, alpha, beta, maximising, Choice(None, init));
  }

  /**
   * A maximising scan whose upper bound is the win sentinel, and whose
   * remaining columns include cols[k], where the bot's drop wins at once,
   * ends worth the win sentinel: the winning child is worth 9999999, which
   * raises alpha to beta, and no earlier column can be worth more.
   */
  lemma {:induction false} ScanFindsWin(live: Board, b: Board, depth: nat, cols: seq<int>, i: nat, alpha: int,
                                        acc: Choice, k: nat, row: int)
    requires SameShape(live, b) && SmallBoard(b) && depth > 0 && i <= k < |cols|
    requires forall j :: 0 <= j < |cols| ==> 0 <= cols[j] < Width(b)
    requires alpha < SENTINEL && -SENTINEL <= acc.value <= SENTINEL
    requires NextOpenRow(b, cols[k]) == Some(row)
    requires WinningMove(Place(b, row, cols[k], BOT_PIECE), BOT_PIECE)
    decreases |cols| - i
    ensures Scan(live, b, depth, cols, i, alpha, SENTINEL, true, acc).value == SENTINEL
  {
    match NextOpenRow(b, cols[i])
    case None =>
      ScanSkip(live, b, depth, cols, i, alpha, SENTINEL, true, acc);
      ScanFindsWin(live, b, depth, cols, i + 1, alpha, acc, k, row);
    case Some(r) =>
      var child := Place(b, r, cols[i], BOT_PIECE);
      var v := Value(live, child, depth - 1, alpha, SENTINEL, false).value;
      var acc' := if v > acc.value then Choice(Some(cols[i]), v) else acc;
      var alpha' := Max(alpha, acc'.value);
      ScanDrop(live, b, depth, cols, i, alpha, SENTINEL, true, acc, r, child, v, acc', alpha', SENTINEL,
               alpha' >= SENTINEL);
      if i == k {
        assert v == SENTINEL;
      } else if alpha' < SENTINEL {
        ScanFindsWin(live, b, depth, cols, i + 1, alpha', acc', k, row);
      }
  }

  /**
   * The hard setting's guarantee on an immediate win: when the bot to move at
   * a non-terminal node has a valid column whose drop completes a four, the
   * node is worth the win sentinel 9999999 (which column attains it is not
   * fixed: an earlier column that forces a win later is worth as much).
   */
  lemma ImmediateWinValue(live: Board, b: Board, depth: nat, alpha: int, c: int, row: int)
    requires SameShape(live, b) && SmallBoard(b) && depth > 0 && !IsTerminal(live, b)
    requires alpha < SENTINEL && c in ValidColumns(live)
    requires NextOpenRow(b, c) == Some(row) && WinningMove(Place(b, row, c, BOT_PIECE), BOT_PIECE)
    ensures Value(live, b, depth, alpha, SENTINEL, true).value == SENTINEL
  {
    var valid := ValidColumns(live);
    var k :| 0 <= k < |valid| && valid[k] == c;
    ScanFindsWin(live, b, depth, valid, 0, alpha, Choice(None, -SENTINEL), k, row);
  }

  /** The same search without the `alpha >= beta` cut-off: plain depth-limited minimax. */
  function PlainValue(live: Board, b: Board, depth: nat, maximising: bool): (r: int)
    requires SameShape(live, b)
    decreases depth, 1, 0
    ensures SmallBoard(b) ==> -SENTINEL <= r <= SENTINEL
  {
    if IsTerminal(live, b) then
      if WinningMove(b, BOT_PIECE) then SENTINEL
      else if WinningMove(b, PLAYER_PIECE) then -SENTINEL
      else 0
    else if depth == 0 then
      ScoreBelowSentinel(b);
      Score(b, BOT_PIECE)
    else
      var init := if maximising then -SENTINEL else SENTINEL;
      PlainScan(live, b, depth, ValidColumns(live), 0, maximising, init)
  }

  /** The best of `acc` and the children's plain values over `cols[i..]`, first strict improvement kept. */
  function PlainScan(live: Board, b: Board, depth: nat, cols: seq<int>, i: nat, maximising: bool, acc: int): (r: int)
    requires SameShape(live, b) && depth > 0 && i <= |cols|
    requires forall k :: 0 <= k < |cols| ==> 0 <= cols[k] < Width(b)
    decreases depth, 0, |cols| - i
    ensures if maximising then r >= acc else r <= acc
    ensures SmallBoard(b) && -SENTINEL <= acc <= SENTINEL ==> -SENTINEL <= r <= SENTINEL
  {
    if i == |cols| then acc
    else
      var c := cols[i];
      match NextOpenRow(b, c)
      case None => PlainScan(live, b, depth, cols, i + 1, maximising, acc)
      case Some(row) =>
        var child := PlainValue(live, Place(b, row, c, Mover(maximising)), depth - 1, !maximising);
        var acc' := if Better(maximising, child, acc) then child else acc;
        PlainScan(live, b, depth, cols, i + 1, maximising, acc')
  }

  /** A next column with an open row whose drop gives `child`: a strictly better child value replaces the incumbent. */
  lemma PlainScanDrop(live: Board, b: Board, depth: nat, cols: seq<int>, i: nat, maximising: bool, acc: int,
                      row: int, child: Board, v: int, acc': int)
    requires SameShape(live, b) && depth > 0
    requires forall k :: 0 <= k < |cols| ==> 0 <= cols[k] < Width(b)
    requires i < |cols| && NextOpenRow(b, cols[i]) == Some(row)
    requires child == Place(b, row, cols[i], Mover(maximising))
    requires v == PlainValue(live, child, depth - 1, !maximising)
    requires acc' == if Better(maximising, v, acc) then v else acc
    ensures PlainScan(live, b, depth, cols, i, maximising, acc) == PlainScan(live, b, depth, cols, i + 1, maximising, acc')
  {
  }

  /**
   * Alpha-beta is exact inside its window: for -SENTINEL <= alpha < beta <=
   * SENTINEL the pruned value and the plain value agree once both are moved
   * into [alpha, beta].
   */
  lemma {:induction false} AlphaBeta(live: Board, b: Board, depth: nat, alpha: int, beta: int, maximising: bool)
    requires SameShape(live, b) && -SENTINEL <= alpha < beta <= SENTINEL
    decreases depth, 1, 0, 0
    ensures Clamp(alpha, beta, Value(live, b, depth, alpha, beta, maximising).value)
         == Clamp(alpha, beta, PlainValue(live, b, depth, maximising))
  {
    if !IsTerminal(live, b) && depth > 0 {
      var init := if maximising then -SENTINEL else SENTINEL;
      if maximising {
        ScanMax(live, b, depth, ValidColumns(live), 0, alpha, alpha, beta, Choice(None, init), init);
      } else {
        ScanMin(live, b, depth, ValidColumns(live), 0, alpha, beta, beta, Choice(None, init), init);
      }
    }
  }

  /** One maximising step keeps the incumbents equal within [alpha0, beta]. */
  lemma MaxStep(alpha0: int, beta: int, m: int, q: int, v: int, p: int)
    requires alpha0 < beta && Max(alpha0, m) < beta
    requires Clamp(alpha0, beta, m) == Clamp(alpha0, beta, q)
    requires Clamp(Max(alpha0, m), beta, v) == Clamp(Max(alpha0, m), beta, p)
    ensures Clamp(alpha0, beta, if v > m then v else m) == Clamp(alpha0, beta, if p > q then p else q)
  {
  }

  /** One minimising step keeps the incumbents equal within [alpha, beta0]. */
  lemma MinStep(alpha: int, beta0: int, m: int, q: int, v: int, p: int)
    requires alpha < beta0 && alpha < Min(beta0, m)
    requires Clamp(alpha, beta0, m) == Clamp(alpha, beta0, q)
    requires Clamp(alpha, Min(beta0, m), v) == Clamp(alpha, Min(beta0, m), p)
    ensures Clamp(alpha, beta0, if v < m then v else m) == Clamp(alpha, beta0, if p < q then p else q)
  {
  }

  /** A maximising node's child, searched in the window [alpha, beta], keeps the incumbents equal within [alpha0, beta]. */
  lemma MaxChild(live: Board, child: Board, d: nat, alpha0: int, alpha: int, beta: int, m: int, q: int, v: int, p: int)
    requires SameShape(live, child) && -SENTINEL <= alpha0 < beta <= SENTINEL && alpha == Max(alpha0, m) && alpha < beta
    requires Clamp(alpha0, beta, m) == Clamp(alpha0, beta, q)
    requires v == Value(live, child, d, alpha, beta, false).value && p == PlainValue(live, child, d, false)
    decreases d + 1, 0, 0, 0
    ensures Clamp(alpha0, beta, if v > m then v else m) == Clamp(alpha0, beta, if p > q then p else q)
  {
    AlphaBeta(live, child, d, alpha, beta, false);
    MaxStep(alpha0, beta, m, q, v, p);
  }

  /** A minimising node's child, searched in the window [alpha, beta], keeps the incumbents equal within [alpha, beta0]. */
  lemma MinChild(live: Board, child: Board, d: nat, alpha: int, beta0: int, beta: int, m: int, q: int, v: int, p: int)
    requires SameShape(live, child) && -SENTINEL <= alpha < beta0 <= SENTINEL && beta == Min(beta0, m) && alpha < beta
    requires Clamp(alpha, beta0, m) == Clamp(alpha, beta0, q)
    requires v == Value(live, child, d, alpha, beta, true).value && p == PlainValue(live, child, d, true)
    decreases d + 1, 0, 0, 0
    ensures Clamp(alpha, beta0, if v < m then v else m) == Clamp(alpha, beta0, if p < q then p else q)
  {
    AlphaBeta(live, child, d, alpha, beta, true);
    MinStep(alpha, beta0, m, q, v, p);
  }

  /**
   * The maximising loop: alpha0 is the node's own alpha, alpha the current one,
   * which is alpha0 raised to the incumbent; the incumbents of the two searches
   * agree within [alpha0, beta].
   */
  lemma {:induction false} ScanMax(live: Board, b: Board, depth: nat, cols: seq<int>, i: nat, alpha0: int, alpha: int,
                                   beta: int, acc: Choice, plain: int)
    requires SameShape(live, b) && depth > 0 && i <= |cols|
    requires forall k :: 0 <= k < |cols| ==> 0 <= cols[k] < Width(b)
    requires -SENTINEL <= alpha0 < beta <= SENTINEL && alpha == Max(alpha0, acc.value) && alpha < beta
    requires Clamp(alpha0, beta, acc.value) == Clamp(alpha0, beta, plain)
    decreases depth, 0, |cols| - i, 1
    ensures Clamp(alpha0, beta, Scan(live, b, depth, cols, i, alpha, beta, true, acc).value)
         == Clamp(alpha0, beta, PlainScan(live, b, depth, cols, i, true, plain))
  {
    if i < |cols| {
      match NextOpenRow(b, cols[i])
      case None =>
        ScanMax(live, b, depth, cols, i + 1, alpha0, alpha, beta, acc, plain);
      case Some(row) =>
        ScanMaxDrop(live, b, depth, cols, i, alpha0, alpha, beta, acc, plain, row);
    }
  }

  /** The step of ScanMax for a next column with an open row. */
  lemma {:induction false} ScanMaxDrop(live: Board, b: Board, depth: nat, cols: seq<int>, i: nat, alpha0: int, alpha: int,
                                       beta: int, acc: Choice, plain: int, row: int)
    requires SameShape(live, b) && depth > 0 && i <= |cols|
    requires forall k :: 0 <= k < |cols| ==> 0 <= cols[k] < Width(b)
    requires -SENTINEL <= alpha0 < beta <= SENTINEL && alpha == Max(alpha0, acc.value) && alpha < beta
    requires Clamp(alpha0, beta, acc.value) == Clamp(alpha0, beta, plain)
    requires i < |cols| && NextOpenRow(b, cols[i]) == Some(row)
    decreases depth, 0, |cols| - i, 0
    ensures Clamp(alpha0, beta, Scan(live, b, depth, cols, i, alpha, beta, true, acc).value)
         == Clamp(alpha0, beta, PlainScan(live, b, depth, cols, i, true, plain))
  {
    var c := cols[i];
    var child := Place(b, row, c, BOT_PIECE);
    var v := Value(live, child, depth - 1, alpha, beta, false).value;
    var p := PlainValue(live, child, depth - 1, false);
    var acc' := if v > acc.value then Choice(Some(c), v) else acc;
    var plain' := if p > plain then p else plain;
    MaxChild(live, child, depth - 1, alpha0, alpha, beta, acc.value, plain, v, p);
    var alpha' := Max(alpha, acc'.value);
    PlainScanDrop(live, b, depth, cols, i, true, plain, row, child, p, plain');
    ScanDrop(live, b, depth, cols, i, alpha, beta, true, acc, row, child, v, acc', alpha', beta, alpha' >= beta);
    if alpha' < beta {
      ScanMax(live, b, depth, cols, i + 1, alpha0, alpha', beta, acc', plain');
    }
  }

  /** The minimising loop, symmetric to ScanMax: beta is beta0 lowered to the incumbent. */
  lemma {:induction false} ScanMin(live: Board, b: Board, depth: nat, cols: seq<int>, i: nat, alpha: int, beta0: int,
                                   beta: int, acc: Choice, plain: int)
    requires SameShape(live, b) && depth > 0 && i <= |cols|
    requires forall k :: 0 <= k < |cols| ==> 0 <= cols[k] < Width(b)
    requires -SENTINEL <= alpha < beta0 <= SENTINEL && beta == Min(beta0, acc.value) && alpha < beta
    requires Clamp(alpha, beta0, acc.value) == Clamp(alpha, beta0, plain)
    decreases depth, 0, |cols| - i, 1
    ensures Clamp(alpha, beta0, Scan(live, b, depth, cols, i, alpha, beta, false, acc).value)
         == Clamp(alpha, beta0, PlainScan(live, b, depth, cols, i, false, plain))
  {
    if i < |cols| {
      match NextOpenRow(b, cols[i])
      case None =>
        ScanMin(live, b, depth, cols, i + 1, alpha, beta0, beta, acc, plain);
      case Some(row) =>
        ScanMinDrop(live, b, depth, cols, i, alpha, beta0, beta, acc, plain, row);
    }
  }

  /** The step of ScanMin for a next column with an open row. */
  lemma {:induction false} ScanMinDrop(live: Board, b: Board, depth: nat, cols: seq<int>, i: nat, alpha: int, beta0: int,
                                       beta: int, acc: Choice, plain: int, row: int)
    requires SameShape(live, b) && depth > 0 && i <= |cols|
    requires forall k :: 0 <= k < |cols| ==> 0 <= cols[k] < Width(b)
    requires -SENTINEL <= alpha < beta0 <= SENTINEL && beta == Min(beta0, acc.value) && alpha < beta
    requires Clamp(alpha, beta0, acc.value) == Clamp(alpha, beta0, plain)
    requires i < |cols| && NextOpenRow(b, cols[i]) == Some(row)
    decreases depth, 0, |cols| - i, 0
    ensures Clamp(alpha, beta0, Scan(live, b, depth, cols, i, alpha, beta, false, acc).value)
         == Clamp(alpha, beta0, PlainScan(live, b, depth, cols, i, false, plain))
  {
    var c := cols[i];
    var child := Place(b, row, c, PLAYER_PIECE);
    var v := Value(live, child, depth - 1, alpha, beta, true).value;
    var p := PlainValue(live, child, depth - 1, true);
    var acc' := if v < acc.value then Choice(Some(c), v) else acc;
    var plain' := if p < plain then p else plain;
    MinChild(live, child, depth - 1, alpha, beta0, beta, acc.value, plain, v, p);
    var beta' := Min(beta, acc'.value);
    PlainScanDrop(live, b, depth, cols, i, false, plain, row, child, p, plain');
    ScanDrop(live, b, depth, cols, i, alpha, beta, false, acc, row, child, v, acc', alpha, beta', alpha >= beta');
    if alpha < beta' {
      ScanMin(live, b, depth, cols, i + 1, alpha, beta0, beta', acc', plain');
    }
  }

  /**
   * With the root window of `get_ai_move` the pruning changes nothing: on a
   * small board the pruned value is the plain minimax value.
   */
  lemma PruningPreservesValue(live: Board, b: Board, depth: nat, maximising: bool)
    requires SameShape(live, b) && SmallBoard(b)
    ensures Value(live, b, depth, -SENTINEL, SENTINEL, maximising).value == PlainValue(live, b, depth, maximising)
  {
    AlphaBeta(live, b, depth, -SENTINEL, SENTINEL, maximising);
  }
}
