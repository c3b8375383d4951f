/** Static evaluation of a position: the material balance and the score of
    a finished game. Positive scores are good for White.
 */
module Evaluation {
  import opened Pieces
  import opened Moves
  import opened Bookkeeping

  const CHECKMATE: int := 1000
  const STALEMATE: int := 0

  /** pieceScore: the value of each kind of piece. */
  function PieceScore(k: Kind): (v: int)
    ensures v > 0
  {
    match k
    case King => 200
    case Queen => 9
    case Rook => 5
    case Bishop => 3
    case Knight => 3
    case Pawn => 1
  }

  /** What one square adds to the balance: a white piece its value, a black
      piece minus its value, an empty square nothing. */
  function Material(p: Piece): int {
    match p
    case Empty => 0
    case Occupied(White, k) => PieceScore(k)
    case Occupied(Black, k) => -PieceScore(k)
  }

  /** The value of the pieces of colour c on a square, and nothing for any other square. */
  function SideValue(c: Color): Piece -> int {
    p => if HasColor(p, c) then PieceScore(p.kind) else 0
  }

  /** scoreMaterial: the balance summed row by row, square by square. */
  function ScoreMaterial(b: Grid): int {
    GridSum(b, Material)
  }

  /** BoardScore: a checkmate is lost for the side to move, a stalemate is a
      draw, and any other position is scored by its material. */
  function BoardScore(checkmate: bool, stalemate: bool, whiteToMove: bool, b: Grid): (score: int)
    ensures checkmate && whiteToMove ==> score == -CHECKMATE
    ensures checkmate && !whiteToMove ==> score == CHECKMATE
    ensures !checkmate && stalemate ==> score == STALEMATE
    ensures !checkmate && !stalemate ==> score == ScoreMaterial(b)
  {
    if checkmate then (if whiteToMove then -CHECKMATE else CHECKMATE)
    else if stalemate then STALEMATE
    else ScoreMaterial(b)
  }

  /** The balance is White's total value minus Black's. */
  lemma MaterialIsDifference(b: Grid)
    ensures ScoreMaterial(b) == GridSum(b, SideValue(White)) - GridSum(b, SideValue(Black))
  {
    GridDifference(b, Material, SideValue(White), SideValue(Black));
  }

  lemma {:induction false} GridDifference(rows: seq<seq<Piece>>, f: Piece -> int, g: Piece -> int, h: Piece -> int)
    requires forall p :: f(p) == g(p) - h(p)
    ensures GridSum(rows, f) == GridSum(rows, g) - GridSum(rows, h)
    decreases |rows|
  {
    if rows != [] {
      GridDifference(rows[..|rows| - 1], f, g, h);
      RowDifference(rows[|rows| - 1], f, g, h);
    }
  }

  lemma {:induction false} RowDifference(row: seq<Piece>, f: Piece -> int, g: Piece -> int, h: Piece -> int)
    requires forall p :: f(p) == g(p) - h(p)
    ensures RowSum(row, f) == RowSum(row, g) - RowSum(row, h)
    decreases |row|
  {
    if row != [] {
      RowDifference(row[..|row| - 1], f, g, h);
    }
  }

  /** A new game is balanced. */
  lemma InitialBalance()
    ensures ScoreMaterial(InitialBoard()) == 0
  {
    var b := InitialBoard();
    MaterialIsDifference(b);
    MirrorSum(b, SideValue(White), SideValue(Black));
  }

  /** Each row of the initial grid mirrors a row of the other colour. */
  lemma MirrorSum(b: Grid, w: Piece -> int, k: Piece -> int)
    requires b == InitialBoard() && w == SideValue(White) && k == SideValue(Black)
    ensures GridSum(b, w) == GridSum(b, k)
  {
    var backTotal := 2 * 5 + 2 * 3 + 2 * 3 + 9 + 200;
    assert RowSum(b[0], w) == 0 by { ZeroRowSum(b[0], w); }
    assert RowSum(b[1], w) == 0 by { ZeroRowSum(b[1], w); }
    assert RowSum(b[6], k) == 0 by { ZeroRowSum(b[6], k); }
    assert RowSum(b[7], k) == 0 by { ZeroRowSum(b[7], k); }
    forall r | 2 <= r < 6
      ensures RowSum(b[r], w) == 0 && RowSum(b[r], k) == 0
    {
      ZeroRowSum(b[r], w);
      ZeroRowSum(b[r], k);
    }
    assert RowSum(b[6], w) == 8 && RowSum(b[1], k) == 8 by {
      UniformRowSum(b[6], w, 1);
      UniformRowSum(b[1], k, 1);
    }
    assert RowSum(b[7], w) == backTotal && RowSum(b[0], k) == backTotal by {
      BackRow(b[7], w);
      BackRow(b[0], k);
    }
    SumRows(b, w);
    SumRows(b, k);
  }

  /** The back row Rook, Knight, Bishop, Queen, King, Bishop, Knight, Rook. */
  lemma BackRow(row: seq<Piece>, f: Piece -> int)
    requires |row| == 8
    requires f(row[0]) == 5 && f(row[1]) == 3 && f(row[2]) == 3 && f(row[3]) == 9
    requires f(row[4]) == 200 && f(row[5]) == 3 && f(row[6]) == 3 && f(row[7]) == 5
    ensures RowSum(row, f) == 231
  {
    assert row[..0] == [] && row[..8] == row;
    RowPrefix(row, 0, f); RowPrefix(row, 1, f); RowPrefix(row, 2, f); RowPrefix(row, 3, f);
    RowPrefix(row, 4, f); RowPrefix(row, 5, f); RowPrefix(row, 6, f); RowPrefix(row, 7, f);
  }

  lemma RowPrefix(row: seq<Piece>, k: int, f: Piece -> int)
    requires 0 <= k < |row|
    ensures RowSum(row[..k + 1], f) == RowSum(row[..k], f) + f(row[k])
  {
    assert row[..k + 1][..k] == row[..k];
  }

  /** The grid total is the total of its eight row totals. */
  lemma SumRows(b: Grid, f: Piece -> int)
    ensures GridSum(b, f) == RowSum(b[0], f) + RowSum(b[1], f) + RowSum(b[2], f) + RowSum(b[3], f)
                           + RowSum(b[4], f) + RowSum(b[5], f) + RowSum(b[6], f) + RowSum(b[7], f)
  {
    assert b[..0] == [] && b[..8] == b;
    GridPrefix(b, 0, f); GridPrefix(b, 1, f); GridPrefix(b, 2, f); GridPrefix(b, 3, f);
    GridPrefix(b, 4, f); GridPrefix(b, 5, f); GridPrefix(b, 6, f); GridPrefix(b, 7, f);
  }

  lemma GridPrefix(rows: seq<seq<Piece>>, k: int, f: Piece -> int)
    requires 0 <= k < |rows|
    ensures GridSum(rows[..k + 1], f) == GridSum(rows[..k], f) + RowSum(rows[k], f)
  {
    assert rows[..k + 1][..k] == rows[..k];
  }

  /** MakeMove changes the balance by the captured piece's value, and for a
      promotion by the difference between the new piece and the pawn;
      castling leaves it unchanged. */
  lemma MakeMaterial(s: Record, m: Move)
    requires Applicable(s, m)
    ensures ScoreMaterial(MakeBoard(s.board, m))
            == ScoreMaterial(s.board) - Material(m.pieceCaptured) + Material(Arriving(m)) - Material(m.pieceMoved)
  {
    MakeBoardSum(s, m, Material);
  }
}
