/**
 * The `Connect4` class: the live board as a two-dimensional array, the player
 * to move, and the methods that drop pieces, detect wins, score positions,
 * search with minimax and choose the computer's move.
 */
module Game {
  import opened Grid
  import opened Win
  import opened Evaluator
  import opened Search

  /** The cells of an array board as a grid value. */
  function Cells(a: array2<int>): (g: Board)
    reads a
    ensures |g| == a.Length0
    ensures forall r :: 0 <= r < a.Length0 ==> |g[r]| == a.Length1
    ensures forall r, c :: 0 <= r < a.Length0 && 0 <= c < a.Length1 ==> g[r][c] == a[r, c]
  {
    seq(a.Length0, r requires 0 <= r < a.Length0 reads a =>
      seq(a.Length1, c requires 0 <= c < a.Length1 reads a => a[r, c]))
  }

  /** The row-by-row copy `minimax` makes before each trial drop. */
  method CopyBoard(b: array2<int>) returns (copy: array2<int>)
    ensures fresh(copy)
    ensures copy.Length0 == b.Length0 && copy.Length1 == b.Length1
    ensures Cells(copy) == Cells(b)
  {
    copy := new int[b.Length0, b.Length1]((r, c) reads b => if 0 <= r < b.Length0 && 0 <= c < b.Length1 then b[r, c] else EMPTY);
    BoardsEqual(Cells(copy), Cells(b));
  }

  /** The difficulty string of `get_ai_move`: one of its three settings, or anything else. */
  datatype Difficulty = Easy | Medium | Hard | Unrecognised

  /** A trial drop of me, or else of opp, into column col completes a four through the landing cell. */
  ghost predicate TrialWins(g: Board, me: int, opp: int, col: int)
    requires IsBoard(g) && 0 <= col < Width(g) && IsOpen(g, col)
  {
    var row := NextOpenRow(g, col).value;
    ThroughFour(Place(g, row, col, me), row, col, me) || ThroughFour(Place(g, row, col, opp), row, col, opp)
  }

  /**
   * The column the medium setting settles on, scanning columns c, c + 1, ...:
   * the first open one where the mover's or the opponent's trial drop wins.
   */
  ghost function WinOrBlock(g: Board, me: int, opp: int, c: nat): (r: Option<int>)
    requires IsBoard(g) && c <= Width(g)
    decreases Width(g) - c
    ensures r.Some? ==> c <= r.value < Width(g) && IsOpen(g, r.value)
  {
    if c == Width(g) then None
    else if IsOpen(g, c) && TrialWins(g, me, opp, c) then Some(c)
    else WinOrBlock(g, me, opp, c + 1)
  }

  /**
   * The medium setting's target is the first open column, from c on, where a
   * trial drop wins; there is none exactly when no open column's trial wins.
   */
  lemma {:induction false} WinOrBlockFirst(g: Board, me: int, opp: int, c: nat)
    requires IsBoard(g) && c <= Width(g)
    decreases Width(g) - c
    ensures var r := WinOrBlock(g, me, opp, c);
      (r.Some? ==> TrialWins(g, me, opp, r.value)
                   && forall k :: c <= k < r.value && IsOpen(g, k) ==> !TrialWins(g, me, opp, k))
      && (r.None? <==> forall k :: c <= k < Width(g) && IsOpen(g, k) ==> !TrialWins(g, me, opp, k))
  {
    if c < Width(g) {
      WinOrBlockFirst(g, me, opp, c + 1);
    }
  }

  class Connect4 {
    const rows: nat
    const cols: nat
    var board: array2<int>
    var currentPlayer: int

    /** The board array has the dimensions given to the constructor. */
    predicate Shaped()
      reads this
    {
      rows > 0 && cols > 0 && board.Length0 == rows && board.Length1 == cols
    }

    /** An array of the game's dimensions, as every board `minimax` sees is. */
    predicate SameDims(b: array2<int>)
      reads this
    {
      b.Length0 == rows && b.Length1 == cols
    }

    /** The live board as a grid value. */
    function Snapshot(): (g: Board)
      reads this, board
      requires Shaped()
      ensures IsBoard(g) && |g| == rows && Width(g) == cols
    {
      Cells(board)
    }

    /** A reachable game state: a player to move, cells of the three kinds, no floating piece. */
    predicate Valid()
      reads this, board
    {
      Shaped() && (currentPlayer == PLAYER_PIECE || currentPlayer == BOT_PIECE)
      && HasPieces(Snapshot()) && Gravity(Snapshot())
    }

    /** A new game: an empty board and player 1 to move. */
    constructor (rows: nat := 6, cols: nat := 7)
      requires rows > 0 && cols > 0
      ensures this.rows == rows && this.cols == cols && Shaped()
      ensures Snapshot() == EmptyBoard(rows, cols) && currentPlayer == PLAYER_PIECE
      ensures Valid() && fresh(board)
    {
      this.rows := rows;
      this.cols := cols;
      board := new int[rows, cols]((_, _) => EMPTY);
      currentPlayer := PLAYER_PIECE;
      new;
      BoardsEqual(Snapshot(), EmptyBoard(rows, cols));
    }

    /**
     * `make_move`: the current player's piece goes into the lowest empty cell
     * of the column, whose position is returned; a full column changes nothing.
     */
    method MakeMove(col: int) returns (placed: Option<(int, int)>)
      requires Shaped() && 0 <= col < cols
      modifies board
      ensures Shaped()
      ensures NextOpenRow(old(Snapshot()), col).None? ==> placed.None? && Snapshot() == old(Snapshot())
      ensures NextOpenRow(old(Snapshot()), col).Some? ==>
        var row := NextOpenRow(old(Snapshot()), col).value;
        placed == Some((row, col)) && Snapshot() == Place(old(Snapshot()), row, col, currentPlayer)
      ensures old(Valid()) ==> Valid()
      ensures old(Valid()) ==> (placed.Some? <==> old(IsValidMove(col)))
    {
      ghost var before := Snapshot();
      if Valid() {
        OpenIffRoom(before, col);
      }
      var row := rows - 1;
      while row >= 0
        invariant -1 <= row < rows
        invariant Snapshot() == before
        invariant forall k :: row < k < rows ==> before[k][col] != EMPTY
      {
        if board[row, col] == EMPTY {
          assert NextOpenRow(before, col) == Some(row);
          board[row, col] := currentPlayer;
          BoardsEqual(Snapshot(), Place(before, row, col, currentPlayer));
          if old(Valid()) {
            DropKeepsGravity(before, col, currentPlayer);
            DropKeepsPieces(before, row, col, currentPlayer);
          }
          return Some((row, col));
        }
        row := row - 1;
      }
      return None;
    }

    /** `is_valid_move`: the top cell of the column on the live board is empty. */
    function IsValidMove(col: int): (open: bool)
      reads this, board
      requires Shaped() && 0 <= col < cols
      ensures open <==> IsOpen(Snapshot(), col)
      ensures Valid() ==> (open <==> NextOpenRow(Snapshot(), col).Some?)
    {
      if Valid() then OpenIffRoom(Snapshot(), col); board[0, col] == EMPTY
      else board[0, col] == EMPTY
    }

    /** `get_valid_locations`: the open columns of the live board, whatever board is asked about. */
    function GetValidLocations(): (cs: seq<int>)
      reads this, board
      requires Shaped()
      ensures forall i :: 0 <= i < |cs| ==> 0 <= cs[i] < cols && IsValidMove(cs[i])
      ensures forall k :: 0 <= k < cols && IsValidMove(k) ==> k in cs
      ensures forall i, j :: 0 <= i < j < |cs| ==> cs[i] < cs[j]
    {
      ValidColumns(Snapshot())
    }

    /** `check_draw`: true exactly when no column of the live board is open. */
    method CheckDraw() returns (draw: bool)
      requires Shaped()
      ensures draw <==> Full(Snapshot())
      ensures draw <==> GetValidLocations() == []
    {
      FullIffNoValidColumn(Snapshot());
      var col := 0;
      while col < cols
        invariant 0 <= col <= cols
        invariant forall k :: 0 <= k < col ==> !IsOpen(Snapshot(), k)
      {
        if IsValidMove(col) {
          return false;
        }
        col := col + 1;
      }
      return true;
    }

    /** `switch_player`: 1 becomes 2 and 2 becomes 1. */
    method SwitchPlayer()
      modifies this
      ensures currentPlayer == 3 - old(currentPlayer) && board == old(board)
      ensures old(Valid()) ==> Valid()
    {
      currentPlayer := 3 - currentPlayer;
    }

    /** `reset_game`: a fresh empty board and player 1 to move. */
    method ResetGame()
      requires rows > 0 && cols > 0
      modifies this
      ensures Shaped() && fresh(board) && Snapshot() == EmptyBoard(rows, cols) && currentPlayer == PLAYER_PIECE
      ensures Valid()
    {
      board := new int[rows, cols]((_, _) => EMPTY);
      currentPlayer := PLAYER_PIECE;
      BoardsEqual(Snapshot(), EmptyBoard(rows, cols));
    }

    /** `is_terminal_node`: a win for either side on `b`, or a full live board. */
    method IsTerminalNode(b: array2<int>) returns (terminal: bool)
      requires Shaped() && SameDims(b)
      ensures terminal <==> IsTerminal(Snapshot(), Cells(b))
      ensures terminal <==> HasFour(Cells(b), BOT_PIECE) || HasFour(Cells(b), PLAYER_PIECE) || Full(Snapshot())
    {
      var g := Cells(b);
      if WinningMove(g, BOT_PIECE) || WinningMove(g, PLAYER_PIECE) {
        return true;
      }
      terminal := CheckDraw();
    }

    /** `get_next_open_row`: the lowest empty row of the column of `b`, searched bottom-up. */
    method GetNextOpenRow(b: array2<int>, col: int) returns (row: Option<int>)
      requires Shaped() && SameDims(b) && 0 <= col < cols
      ensures row == NextOpenRow(Cells(b), col)
    {
      var r := rows - 1;
      while r >= 0
        invariant -1 <= r < rows
        invariant NextOpenRowFrom(Cells(b), col, r) == NextOpenRow(Cells(b), col)
      {
        if b[r, col] == EMPTY {
          return Some(r);
        }
        r := r - 1;
      }
      return None;
    }

    /** `check_winner`'s walk: cells of `player` from (row, col) on in direction (dr, dc), less the origin. */
    method CountConsecutive(row: int, col: int, player: int, dr: int, dc: int) returns (count: int)
      requires Shaped() && -1 <= dr <= 1 && -1 <= dc <= 1 && (dr != 0 || dc != 0)
      ensures count == RunLength(Snapshot(), row, col, dr, dc, player) - 1
    {
      var g := Snapshot();
      count := 0;
      var r, c := row, col;
      while 0 <= r < rows && 0 <= c < cols && board[r, c] == player
        invariant count + RunLength(g, r, c, dr, dc, player) == RunLength(g, row, col, dr, dc, player)
        decreases Reach(g, r, c, dr, dc)
      {
        count := count + 1;
        r := r + dr;
        c := c + dc;
      }
      count := count - 1;
    }

    /**
     * `check_winner`: some window of four through (row, col), along one of the
     * four axes, holds only `player`; then `winning_move` holds as well.
     */
    method CheckWinner(row: int, col: int, player: int) returns (won: bool)
      requires Shaped()
      ensures won <==> ThroughFour(Snapshot(), row, col, player)
      ensures won ==> WinningMove(Snapshot(), player) && Snapshot()[row][col] == player
    {
      var g := Snapshot();
      var k := 0;
      while k < |Directions|
        invariant 0 <= k <= |Directions|
        invariant forall j :: 0 <= j < k ==> !DirectionWins(g, row, col, player, j)
      {
        var (dr, dc) := Directions[k];
        var forward := CountConsecutive(row, col, player, dr, dc);
        var backward := CountConsecutive(row, col, player, -dr, -dc);
        if forward + backward >= 3 {
          assert DirectionWins(g, row, col, player, k);
          ThroughFourIffDirectionWins(g, row, col, player);
          ThroughFourIsWin(g, row, col, player);
          return true;
        }
        k := k + 1;
      }
      ThroughFourIffDirectionWins(g, row, col, player);
      return false;
    }

    /** `drop_piece`: `piece` is written into cell (row, col) of `b` and nothing else changes. */
    static method DropPiece(b: array2<int>, row: int, col: int, piece: int)
      requires 0 <= row < b.Length0 && 0 <= col < b.Length1
      modifies b
      ensures Cells(b) == Place(old(Cells(b)), row, col, piece)
    {
      ghost var before := Cells(b);
      b[row, col] := piece;
      BoardsEqual(Cells(b), Place(before, row, col, piece));
    }

    /**
     * The child position of one search step on arrays: a fresh copy of the
     * node's board with the piece dropped at (row, col); the node's board is
     * left as it was, so the value `Place` gives is the child the search scores.
     * Nothing calls it: the search runs on board values, and this method ties
     * the copy-and-drop on arrays to `Place`.
     */
    static method ChildBoard(b: array2<int>, row: int, col: int, piece: int) returns (child: array2<int>)
      requires 0 <= row < b.Length0 && 0 <= col < b.Length1
      ensures fresh(child)
      ensures Cells(child) == Place(Cells(b), row, col, piece)
    {
      child := CopyBoard(b);
      DropPiece(child, row, col, piece);
    }

    /** The window scores of one of the four blocks of `score_position`. */
    static method AxisWindows(g: Board, piece: int, a: Axis) returns (score: int)
      requires IsBoard(g)
      ensures score == AxisScore(g, piece, a)
    {
      var outer, inner := OuterCount(a, |g|, Width(g)), InnerCount(a, |g|, Width(g));
      score := 0;
      var o := 0;
      while o < outer
        invariant 0 <= o <= outer && score == AxisSum(g, piece, a, o)
      {
        var i := 0;
        while i < inner
          invariant 0 <= i <= inner && score == AxisSum(g, piece, a, o) + RowSum(g, piece, a, o, i)
        {
          var window := LoopWindow(g, a, o, i);
          score := score + EvaluateWindow(window, piece);
          i := i + 1;
        }
        o := o + 1;
      }
    }

    /** `score_position`: the centre-column weight plus the four blocks of window scores. */
    method ScorePosition(b: array2<int>, piece: int) returns (score: int)
      requires Shaped() && SameDims(b)
      ensures score == Score(Cells(b), piece)
    {
      score := BoardScore(Cells(b), piece);
    }

    /** The body of `score_position` on a board value. */
    static method BoardScore(g: Board, piece: int) returns (score: int)
      requires IsBoard(g)
      ensures score == Score(g, piece)
    {
      var centre := Column(g, Width(g) / 2);
      score := 3 * Count(centre, piece);
      var h := AxisWindows(g, piece, Horizontal);
      var v := AxisWindows(g, piece, Vertical);
      var d := AxisWindows(g, piece, Diagonal);
      var u := AxisWindows(g, piece, AntiDiagonal);
      score := score + h + v + d + u;
    }

    /**
     * `minimax`: the value of `b` searched to `depth` with pruning, read from
     * the live board's open columns. A leaf returns no column; otherwise the
     * column is the first strictly best one, or the random initial pick when
     * no child beats the sentinel. Neither board is written.
     */
    method Minimax(b: array2<int>, depth: nat, alpha: int, beta: int, maximising: bool)
      returns (column: Option<int>, value: int)
      requires Shaped() && SameDims(b)
      ensures value == Value(Snapshot(), Cells(b), depth, alpha, beta, maximising).value
      ensures IsLeaf(Snapshot(), Cells(b), depth) ==> column.None?
      ensures Value(Snapshot(), Cells(b), depth, alpha, beta, maximising).column.Some? ==>
                column == Value(Snapshot(), Cells(b), depth, alpha, beta, maximising).column
      ensures !IsLeaf(Snapshot(), Cells(b), depth) ==> column.Some? && column.value in GetValidLocations()
    {
      column, value := SearchNode(Snapshot(), Cells(b), depth, alpha, beta, maximising);
    }

    /**
     * One node of `minimax` on board values: the live board `live` and the
     * node's board `b`. Terminal nodes score the win (or 0 for a draw), depth
     * 0 scores the position for the bot, and inner nodes scan the columns.
     */
    static method SearchNode(live: Board, b: Board, depth: nat, alpha: int, beta: int, maximising: bool)
      returns (column: Option<int>, value: int)
      requires SameShape(live, b)
      decreases depth, 4
      ensures value == Value(live, b, depth, alpha, beta, maximising).value
      ensures IsLeaf(live, b, depth) ==> column.None?
      ensures Value(live, b, depth, alpha, beta, maximising).column.Some? ==>
                column == Value(live, b, depth, alpha, beta, maximising).column
      ensures !IsLeaf(live, b, depth) ==> column.Some? && column.value in ValidColumns(live)
    {
      if WinningMove(b, BOT_PIECE) {
        return None, SENTINEL;
      } else if WinningMove(b, PLAYER_PIECE) {
        return None, -SENTINEL;
      } else if Full(live) {
        return None, 0;
      } else if depth == 0 {
        value := BoardScore(b, BOT_PIECE);
        return None, value;
      }
      column, value := SearchColumns(live, b, depth, alpha, beta, maximising);
    }

    /**
     * The column loop of `minimax` at an inner node: the incumbent starts at
     * the sentinel with a random valid column, and the valid columns are
     * tried in ascending order until alpha >= beta.
     */
    static method SearchColumns(live: Board, b: Board, depth: nat, alpha: int, beta: int, maximising: bool)
      returns (column: Option<int>, value: int)
      requires SameShape(live, b) && depth > 0 && !Full(live)
      decreases depth, 3
      ensures var init := if maximising then -SENTINEL else SENTINEL;
        var spec := Scan(live, b, depth, ValidColumns(live), 0, alpha, beta, maximising, Choice(None, init));
        value == spec.value && (spec.column.Some? ==> column == spec.column)
      ensures column.Some? && column.value in ValidColumns(live)
    {
      var valid := ValidColumns(live);
      var init := if maximising then -SENTINEL else SENTINEL;
      var pick := RandomColumn(live);
      ghost var best;
      column, value, best := ColumnLoop(live, b, depth, valid, alpha, beta, maximising, init, pick);
    }

    /**
     * The `for col in valid_locations` loop of `minimax`: starting from the
     * random column `pick` and the sentinel `init`, every column in turn is
     * tried; the loop leaves early when the window closes.
     */
    static method ColumnLoop(live: Board, b: Board, depth: nat, valid: seq<int>, alpha: int, beta: int,
                             maximising: bool, init: int, pick: int)
      returns (column: Option<int>, value: int, ghost best: Option<int>)
      requires SameShape(live, b) && depth > 0
      requires forall k :: 0 <= k < |valid| ==> 0 <= valid[k] < Width(b)
      requires pick in valid
      decreases depth, 2
      ensures Choice(best, value) == Scan(live, b, depth, valid, 0, alpha, beta, maximising, Choice(None, init))
      ensures best.Some? ==> column == best
      ensures column.Some? && column.value in valid
    {
      ghost var spec := Scan(live, b, depth, valid, 0, alpha, beta, maximising, Choice(None, init));
      value := init;
      column := Some(pick);
      best := None;
      var a, be := alpha, beta;
      var i := 0;
      while i < |valid|
        invariant 0 <= i <= |valid|
        invariant Scan(live, b, depth, valid, i, a, be, maximising, Choice(best, value)) == spec
        invariant best.Some? ==> column == best
        invariant column.Some? && column.value in valid
      {
        var improved, stop;
        improved, value, a, be, stop, best := TryColumn(live, b, depth, valid, i, value, a, be, maximising, best, spec);
        if improved {
          column := Some(valid[i]);
        }
        if stop {
          return;
        }
        i := i + 1;
      }
    }

    /** `random.choice(valid_locations)` on a board with an open column: any valid column. */
    static method RandomColumn(live: Board) returns (pick: int)
      requires IsBoard(live) && !Full(live)
      ensures pick in ValidColumns(live)
    {
      FullIffNoValidColumn(live);
      pick :| pick in ValidColumns(live);
    }

    /**
     * One pass of the column loop of `minimax`, for the column `valid[i]`.
     * When the column has an open row on `b`, the mover's piece is dropped
     * there on a copy, the copy is searched one level deeper for the other
     * side, a strictly better value replaces the incumbent, alpha (beta) moves
     * to the incumbent, and the loop is to stop once alpha >= beta; otherwise
     * nothing changes. Either way the scan keeps its result `spec`.
     */
    static method TryColumn(live: Board, b: Board, depth: nat, valid: seq<int>, i: nat, value: int,
                            alpha: int, beta: int, maximising: bool, ghost best: Option<int>, ghost spec: Choice)
      returns (improved: bool, value': int, alpha': int, beta': int, stop: bool, ghost best': Option<int>)
      requires SameShape(live, b) && depth > 0
      requires forall k :: 0 <= k < |valid| ==> 0 <= valid[k] < Width(b)
      requires i < |valid| && Scan(live, b, depth, valid, i, alpha, beta, maximising, Choice(best, value)) == spec
      decreases depth, 1
      ensures best' == if improved then Some(valid[i]) else best
      ensures if stop then Choice(best', value') == spec
              else Scan(live, b, depth, valid, i + 1, alpha', beta', maximising, Choice(best', value')) == spec
    {
      var col := valid[i];
      var row := NextOpenRow(b, col);
      if row.None? {
        ScanSkip(live, b, depth, valid, i, alpha, beta, maximising, Choice(best, value));
        return false, value, alpha, beta, false, best;
      }
      var child := Place(b, row.value, col, Mover(maximising));
      var newScore := ChildScore(live, child, depth - 1, alpha, beta, !maximising);
      improved := Better(maximising, newScore, value);
      value' := if improved then newScore else value;
      best' := if improved then Some(col) else best;
      alpha', beta' := alpha, beta;
      if maximising {
        alpha' := Max(alpha, value');
      } else {
        beta' := Min(beta, value');
      }
      stop := alpha' >= beta';
      ScanDrop(live, b, depth, valid, i, alpha, beta, maximising, Choice(best, value), row.value, child, newScore,
               Choice(best', value'), alpha', beta', stop);
    }

    /** The `new_score` of a child position: the value of its `minimax` call, its column dropped. */
    static method ChildScore(live: Board, child: Board, depth: nat, alpha: int, beta: int, maximising: bool)
      returns (newScore: int)
      requires SameShape(live, child)
      decreases depth + 1, 0
      ensures newScore == Value(live, child, depth, alpha, beta, maximising).value
    {
      var _, v := SearchNode(live, child, depth, alpha, beta, maximising);
      newScore := v;
    }

    /**
     * A trial drop of the medium setting: `piece` is written into the empty
     * cell (row, col) of the live board, `check_winner` is asked about it, and
     * the cell is emptied again.
     */
    method TrialDrop(row: int, col: int, piece: int) returns (won: bool)
      requires Shaped() && 0 <= row < rows && 0 <= col < cols && Snapshot()[row][col] == EMPTY
      modifies board
      ensures Shaped() && Snapshot() == old(Snapshot())
      ensures won <==> ThroughFour(Place(old(Snapshot()), row, col, piece), row, col, piece)
    {
      ghost var g := Snapshot();
      board[row, col] := piece;
      BoardsEqual(Snapshot(), Place(g, row, col, piece));
      won := CheckWinner(row, col, piece);
      board[row, col] := EMPTY;
      BoardsEqual(Snapshot(), g);
    }

    /**
     * The medium setting's work on one open column: the rows are searched
     * bottom-up for the first empty cell, where the mover's piece and then the
     * opponent's are tried; the board ends as it began.
     */
    method TrialColumn(col: int, opponent: int) returns (wins: bool)
      requires Shaped() && 0 <= col < cols && IsOpen(Snapshot(), col)
      modifies board
      ensures Shaped() && Snapshot() == old(Snapshot())
      ensures wins <==> TrialWins(Snapshot(), currentPlayer, opponent, col)
    {
      ghost var g := Snapshot();
      var row := rows - 1;
      while row >= 0
        invariant -1 <= row < rows
        invariant Shaped() && Snapshot() == g
        invariant forall k :: row < k < rows ==> g[k][col] != EMPTY
      {
        if board[row, col] == EMPTY {
          assert NextOpenRow(g, col) == Some(row);
          wins := TrialDrop(row, col, currentPlayer);
          if wins {
            return;
          }
          wins := TrialDrop(row, col, opponent);
          return;
        }
        row := row - 1;
      }
      assert false;
    }

    /**
     * The medium setting's scan: for each open column in ascending order the
     * mover's piece and then the opponent's are tried in its lowest empty
     * cell; the first column where either completes a four is returned. The
     * trial pieces are taken back, so the board ends as it began.
     */
    method WinOrBlockMove() returns (move: Option<int>)
      requires Shaped()
      modifies board
      ensures Shaped() && Snapshot() == old(Snapshot())
      ensures move == WinOrBlock(Snapshot(), currentPlayer, 3 - currentPlayer, 0)
    {
      ghost var g := Snapshot();
      var me := currentPlayer;
      var opponent := 3 - currentPlayer;
      ghost var target := WinOrBlock(g, me, opponent, 0);
      var col := 0;
      while col < cols
        invariant 0 <= col <= cols
        invariant Shaped() && Snapshot() == g && currentPlayer == me
        invariant WinOrBlock(g, me, opponent, col) == target
      {
        if IsValidMove(col) {
          var wins := TrialColumn(col, opponent);
          if wins {
            return Some(col);
          }
        }
        col := col + 1;
      }
      return None;
    }

    /** The easy setting: a random valid column, or None when there is none. */
    method EasyMove() returns (move: Option<int>)
      requires Shaped()
      ensures move.Some? <==> GetValidLocations() != []
      ensures move.Some? ==> move.value in GetValidLocations()
    {
      var validCols := GetValidLocations();
      if validCols != [] {
        assert validCols[0] in validCols;
        var pick :| pick in validCols;
        return Some(pick);
      }
      return None;
    }

    /** The medium setting: win or block when one drop decides, else as the easy setting. */
    method MediumMove() returns (move: Option<int>)
      requires Shaped()
      modifies board
      ensures Shaped() && Snapshot() == old(Snapshot())
      ensures var target := WinOrBlock(Snapshot(), currentPlayer, 3 - currentPlayer, 0);
        (target.Some? ==> move == target) && (move.Some? <==> GetValidLocations() != [])
      ensures move.Some? ==> move.value in GetValidLocations()
    {
      ghost var g := Snapshot();
      ghost var target := WinOrBlock(g, currentPlayer, 3 - currentPlayer, 0);
      move := WinOrBlockMove();
      assert Snapshot() == g && move == target;
      if move.Some? {
        assert IsOpen(g, move.value);
        return move;
      }
      move := EasyMove();
      assert Snapshot() == g;
    }

    /** The hard setting: the column of a depth-4 `minimax` on the live board, maximising for the bot. */
    method HardMove() returns (move: Option<int>)
      requires Shaped()
      ensures var root := Value(Snapshot(), Snapshot(), 4, -SENTINEL, SENTINEL, true);
        (IsLeaf(Snapshot(), Snapshot(), 4) <==> move.None?) && (root.column.Some? ==> move == root.column)
      ensures move.Some? ==> move.value in GetValidLocations()
    {
      var column, _ := Minimax(board, 4, -SENTINEL, SENTINEL, true);
      move := column;
    }

    /**
     * `get_ai_move`: easy picks some open column; medium wins or blocks when a
     * single drop decides, else picks some open column; hard plays the column
     * of a depth-4 `minimax` on the live board. No open column, or a
     * difficulty it does not know, gives None.
     */
    method GetAiMove(difficulty: Difficulty) returns (move: Option<int>)
      requires Shaped()
      modifies board
      ensures Shaped() && Snapshot() == old(Snapshot())
      ensures move.Some? ==> move.value in GetValidLocations()
      ensures difficulty == Easy ==> (move.Some? <==> GetValidLocations() != [])
      ensures difficulty == Medium ==>
        var target := WinOrBlock(Snapshot(), currentPlayer, 3 - currentPlayer, 0);
        (target.Some? ==> move == target) && (move.Some? <==> GetValidLocations() != [])
      ensures difficulty == Hard ==>
        var root := Value(Snapshot(), Snapshot(), 4, -SENTINEL, SENTINEL, true);
        (IsLeaf(Snapshot(), Snapshot(), 4) <==> move.None?) && (root.column.Some? ==> move == root.column)
      ensures difficulty == Unrecognised ==> move.None?
    {
      match difficulty
      case Easy => move := EasyMove();
      case Medium => move := MediumMove();
      case Hard => move := HardMove();
      case Unrecognised => move := None;
    }
  }
}
