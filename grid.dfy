/**
 * The board as a value: a rectangular grid of cells, row 0 at the top, together
 * with the gravity-drop helpers of the `Connect4` class that only look at a grid
 * (`get_next_open_row`, the column test of `is_valid_move`, the list built by
 * `get_valid_locations`, the full-board test of `check_draw`).
 */
module Grid {

  const EMPTY := 0
  const PLAYER_PIECE := 1
  const BOT_PIECE := 2
  const WINDOW_LENGTH := 4

  datatype Option<T> = None | Some(value: T)

  /** Rows of cells; `g[r][c]` is the cell in row `r` (0 is the top) and column `c`. */
  type Board = seq<seq<int>>

  /** A non-empty rectangular grid. */
  predicate IsBoard(g: Board) {
    |g| > 0 && |g[0]| > 0 && forall r :: 0 <= r < |g| ==> |g[r]| == |g[0]|
  }

  function Width(g: Board): nat
    requires IsBoard(g)
  {
    |g[0]|
  }

  /** Two boards of the same dimensions, as a board and its copy are. */
  predicate SameShape(g: Board, h: Board) {
    IsBoard(g) && IsBoard(h) && |g| == |h| && Width(g) == Width(h)
  }

  predicate InBounds(g: Board, r: int, c: int)
    requires IsBoard(g)
  {
    0 <= r < |g| && 0 <= c < Width(g)
  }

  /** Every cell holds one of the three cell values. */
  predicate HasPieces(g: Board)
    requires IsBoard(g)
  {
    forall r, c :: 0 <= r < |g| && 0 <= c < Width(g) ==> g[r][c] in {EMPTY, PLAYER_PIECE, BOT_PIECE}
  }

  /**
   * Gravity consistency: in every column the empty cells form a prefix from the
   * top, so an occupied cell never has an empty cell below it.
   */
  predicate Gravity(g: Board)
    requires IsBoard(g)
  {
    forall r1, r2, c :: 0 <= r1 < r2 < |g| && 0 <= c < Width(g) && g[r2][c] == EMPTY ==> g[r1][c] == EMPTY
  }

  /** The board with cell (r, c) set to v: what `drop_piece` does to its board. */
  function Place(g: Board, r: int, c: int, v: int): (h: Board)
    requires IsBoard(g) && InBounds(g, r, c)
    ensures SameShape(g, h)
    ensures h[r][c] == v
    ensures forall i, j :: 0 <= i < |g| && 0 <= j < Width(g) && (i != r || j != c) ==> h[i][j] == g[i][j]
  {
    g[r := g[r][c := v]]
  }

  /** The all-empty board of the constructor and of `reset_game`. */
  function EmptyBoard(rows: nat, cols: nat): (g: Board)
    requires rows > 0 && cols > 0
    ensures IsBoard(g) && |g| == rows && Width(g) == cols
    ensures forall r, c :: 0 <= r < rows && 0 <= c < cols ==> g[r][c] == EMPTY
  {
    seq(rows, _ => seq(cols, _ => EMPTY))
  }

  /** The rows r, r - 1, ..., 0 searched in turn for an empty cell in column `col`. */
  function NextOpenRowFrom(g: Board, col: int, r: int): (row: Option<int>)
    requires IsBoard(g) && 0 <= col < Width(g) && r < |g|
    decreases r + 1
    ensures row.Some? ==> 0 <= row.value <= r && g[row.value][col] == EMPTY
                          && forall k :: row.value < k <= r ==> g[k][col] != EMPTY
    ensures row.None? <==> forall k :: 0 <= k <= r ==> g[k][col] != EMPTY
  {
    if r < 0 then None
    else if g[r][col] == EMPTY then Some(r)
    else NextOpenRowFrom(g, col, r - 1)
  }

  /**
   * The row a piece dropped into `col` lands in: the empty cell of that column
   * with the largest row index, or None when the column has no empty cell.
   */
  function NextOpenRow(g: Board, col: int): (row: Option<int>)
    requires IsBoard(g) && 0 <= col < Width(g)
    ensures row.Some? ==> 0 <= row.value < |g| && g[row.value][col] == EMPTY
                          && forall k :: row.value < k < |g| ==> g[k][col] != EMPTY
    ensures row.None? <==> forall k :: 0 <= k < |g| ==> g[k][col] != EMPTY
  {
    NextOpenRowFrom(g, col, |g| - 1)
  }

  /** The test of `is_valid_move`: the top cell of the column is empty. */
  predicate IsOpen(g: Board, col: int)
    requires IsBoard(g) && 0 <= col < Width(g)
  {
    g[0][col] == EMPTY
  }

  /** The columns c, c + 1, ... that are open, in ascending order. */
  function OpenColumnsFrom(g: Board, c: nat): (cs: seq<int>)
    requires IsBoard(g) && c <= Width(g)
    decreases Width(g) - c
    ensures forall i :: 0 <= i < |cs| ==> c <= cs[i] < Width(g)
    ensures forall i, j :: 0 <= i < j < |cs| ==> cs[i] < cs[j]
    ensures forall k :: c <= k < Width(g) ==> (k in cs <==> IsOpen(g, k))
  {
    if c == Width(g) then []
    else if IsOpen(g, c) then [c] + OpenColumnsFrom(g, c + 1)
    else OpenColumnsFrom(g, c + 1)
  }

  /** The list of `get_valid_locations`: every open column, ascending. */
  function ValidColumns(g: Board): (cs: seq<int>)
    requires IsBoard(g)
    ensures forall i :: 0 <= i < |cs| ==> 0 <= cs[i] < Width(g)
    ensures forall i, j :: 0 <= i < j < |cs| ==> cs[i] < cs[j]
    ensures forall k :: 0 <= k < Width(g) ==> (k in cs <==> IsOpen(g, k))
  {
    OpenColumnsFrom(g, 0)
  }

  /** The test of `check_draw`: no column is open. */
  predicate Full(g: Board)
    requires IsBoard(g)
  {
    forall c :: 0 <= c < Width(g) ==> !IsOpen(g, c)
  }

  /** A board is full exactly when it has no valid column. */
  lemma FullIffNoValidColumn(g: Board)
    requires IsBoard(g)
    ensures Full(g) <==> ValidColumns(g) == []
  {
    if !Full(g) {
      var c :| 0 <= c < Width(g) && IsOpen(g, c);
      assert c in ValidColumns(g);
    }
    if ValidColumns(g) != [] {
      assert IsOpen(g, ValidColumns(g)[0]);
    }
  }

  /**
   * Under gravity, the top cell of a column is empty exactly when the column
   * has room for a drop; the row the piece lands in is then the lowest empty one.
   */
  lemma OpenIffRoom(g: Board, col: int)
    requires IsBoard(g) && Gravity(g) && 0 <= col < Width(g)
    ensures IsOpen(g, col) <==> NextOpenRow(g, col).Some?
  {
    if NextOpenRow(g, col).Some? {
      var r := NextOpenRow(g, col).value;
      if r > 0 {
        assert g[r][col] == EMPTY;
      }
    }
  }

  /** Dropping a piece into the lowest empty row keeps every column gravity-consistent. */
  lemma {:induction false} DropKeepsGravity(g: Board, col: int, piece: int)
    requires IsBoard(g) && Gravity(g) && 0 <= col < Width(g)
    requires NextOpenRow(g, col).Some? && piece != EMPTY
    ensures Gravity(Place(g, NextOpenRow(g, col).value, col, piece))
  {
    var row := NextOpenRow(g, col).value;
    var h := Place(g, row, col, piece);
    forall r1, r2, c | 0 <= r1 < r2 < |h| && 0 <= c < Width(h) && h[r2][c] == EMPTY
      ensures h[r1][c] == EMPTY
    {
      if c == col {
        assert r2 != row && g[r2][c] == EMPTY;
        assert r2 < row;
        assert g[r1][c] == EMPTY;
      } else {
        assert g[r2][c] == EMPTY;
      }
    }
  }

  /** Dropping a piece keeps the cell values in range. */
  lemma DropKeepsPieces(g: Board, row: int, col: int, piece: int)
    requires IsBoard(g) && HasPieces(g) && InBounds(g, row, col)
    requires piece in {EMPTY, PLAYER_PIECE, BOT_PIECE}
    ensures HasPieces(Place(g, row, col, piece))
  {
  }

  /** Two boards with the same dimensions and the same cells are equal. */
  lemma BoardsEqual(g: Board, h: Board)
    requires |g| == |h|
    requires forall r :: 0 <= r < |g| ==> |g[r]| == |h[r]|
    requires forall r, c :: 0 <= r < |g| && 0 <= c < |g[r]| ==> g[r][c] == h[r][c]
    ensures g == h
  {
    forall r | 0 <= r < |g| ensures g[r] == h[r] {
    }
  }
}
