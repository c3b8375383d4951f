/** Pieces, squares and the 8x8 grid of the chess engine.

    The engine writes a piece as a two-character string: colour ('w' or 'b')
    then kind ('K', 'Q', 'R', 'B', 'N', 'P'), and "--" for an empty square.
    Here a piece is a tagged value and the grid is a sequence of eight rows of
    eight squares. Row 0 is the rank-8 side of the board.
 */
module Pieces {

  datatype Option<T> = None | Some(value: T)

  datatype Color = White | Black {
    function Opponent(): (c: Color)
      ensures c != this
    {
      if this == White then Black else White
    }
  }

  datatype Kind = King | Queen | Rook | Bishop | Knight | Pawn

  /** "--" is Empty; "wK" is Occupied(White, King), and so on. */
  datatype Piece = Empty | Occupied(color: Color, kind: Kind)

  /** A (row, col) pair; only pairs with both parts in 0..7 name a square. */
  type Square = (int, int)

  predicate OnBoard(row: int, col: int) {
    0 <= row < 8 && 0 <= col < 8
  }

  predicate IsGrid(b: seq<seq<Piece>>) {
    |b| == 8 && forall r :: 0 <= r < 8 ==> |b[r]| == 8
  }

  function EmptyGrid(): (b: seq<seq<Piece>>)
    ensures IsGrid(b)
  {
    seq(8, _ => seq(8, _ => Empty))
  }

  type Grid = b: seq<seq<Piece>> | IsGrid(b) witness EmptyGrid()

  /** The side to move as a colour (the engine keeps a boolean whiteToMove). */
  function Mover(whiteToMove: bool): Color {
    if whiteToMove then White else Black
  }

  /** piece[0] == colour in the engine: true only for a piece of that colour. */
  predicate HasColor(p: Piece, c: Color) {
    p.Occupied? && p.color == c
  }

  /** board[row][col] = p, every other square kept. */
  function Put(b: Grid, row: int, col: int, p: Piece): (b': Grid)
    requires OnBoard(row, col)
    ensures b'[row][col] == p
    ensures forall r, c :: OnBoard(r, c) && (r, c) != (row, col) ==> b'[r][c] == b[r][c]
  {
    b[row := b[row][col := p]]
  }

  /** A second write to the same square overrides the first. */
  lemma PutTwice(b: Grid, row: int, col: int, p: Piece, q: Piece)
    requires OnBoard(row, col)
    ensures Put(Put(b, row, col, p), row, col, q) == Put(b, row, col, q)
  {
    assert Put(Put(b, row, col, p), row, col, q)[row] == Put(b, row, col, q)[row];
  }

  /** The position a new game starts from. */
  function InitialBoard(): Grid {
    var back := [Rook, Knight, Bishop, Queen, King, Bishop, Knight, Rook];
    [ seq(8, c requires 0 <= c < 8 => Occupied(Black, back[c])),
      seq(8, _ => Occupied(Black, Pawn)),
      seq(8, _ => Empty), seq(8, _ => Empty), seq(8, _ => Empty), seq(8, _ => Empty),
      seq(8, _ => Occupied(White, Pawn)),
      seq(8, c requires 0 <= c < 8 => Occupied(White, back[c])) ]
  }

  // Sums over the grid: the material score and the piece counts are both
  // a total of some value per square, row by row.

  function RowSum(row: seq<Piece>, f: Piece -> int): int
    decreases |row|
  {
    if row == [] then 0 else RowSum(row[..|row| - 1], f) + f(row[|row| - 1])
  }

  function GridSum(rows: seq<seq<Piece>>, f: Piece -> int): int
    decreases |rows|
  {
    if rows == [] then 0 else GridSum(rows[..|rows| - 1], f) + RowSum(rows[|rows| - 1], f)
  }

  /** Changing one square of a row changes its sum by the difference. */
  lemma {:induction false} RowSumUpdate(row: seq<Piece>, c: int, p: Piece, f: Piece -> int)
    requires 0 <= c < |row|
    ensures RowSum(row[c := p], f) == RowSum(row, f) - f(row[c]) + f(p)
    decreases |row|
  {
    var n := |row|;
    if c == n - 1 {
      assert row[c := p][..n - 1] == row[..n - 1];
    } else {
      assert row[c := p][..n - 1] == row[..n - 1][c := p];
      RowSumUpdate(row[..n - 1], c, p, f);
    }
  }

  /** Replacing one row changes the grid's sum by the difference of the row sums. */
  lemma {:induction false} GridSumUpdate(rows: seq<seq<Piece>>, r: int, row: seq<Piece>, f: Piece -> int)
    requires 0 <= r < |rows|
    ensures GridSum(rows[r := row], f) == GridSum(rows, f) - RowSum(rows[r], f) + RowSum(row, f)
    decreases |rows|
  {
    var n := |rows|;
    if r == n - 1 {
      assert rows[r := row][..n - 1] == rows[..n - 1];
    } else {
      assert rows[r := row][..n - 1] == rows[..n - 1][r := row];
      GridSumUpdate(rows[..n - 1], r, row, f);
    }
  }

  /** One write to the grid changes a sum by what left and what arrived. */
  lemma PutSum(b: Grid, row: int, col: int, p: Piece, f: Piece -> int)
    requires OnBoard(row, col)
    ensures GridSum(Put(b, row, col, p), f) == GridSum(b, f) - f(b[row][col]) + f(p)
  {
    RowSumUpdate(b[row], col, p, f);
    GridSumUpdate(b, row, b[row][col := p], f);
  }

  /** A sum of values that are never negative is never negative. */
  lemma {:induction false} GridSumNonNegative(rows: seq<seq<Piece>>, f: Piece -> int)
    requires forall p :: f(p) >= 0
    ensures GridSum(rows, f) >= 0
    decreases |rows|
  {
    if rows != [] {
      GridSumNonNegative(rows[..|rows| - 1], f);
      RowSumNonNegative(rows[|rows| - 1], f);
    }
  }

  lemma {:induction false} RowSumNonNegative(row: seq<Piece>, f: Piece -> int)
    requires forall p :: f(p) >= 0
    ensures RowSum(row, f) >= 0
    decreases |row|
  {
    if row != [] {
      RowSumNonNegative(row[..|row| - 1], f);
    }
  }

  /** Concatenation regroups freely; stated once so that the loops that
      build move lists can regroup without unfolding sequence equality. */
  lemma ConcatAssoc<T>(a: seq<T>, b: seq<T>, c: seq<T>)
    ensures (a + b) + c == a + (b + c)
  {
  }
}
