/** The Move value of the engine, its identity and its text forms, and the
    castling-rights record.
 */
module Moves {
  import opened Pieces

  /** Four independent castling rights, in the order the engine's constructor
      takes them. The engine keeps them in a mutable object; here they are a
      value (see README, "Left out"). */
  datatype CastleRights = CastleRights(whiteKSide: bool, blackKSide: bool, whiteQSide: bool, blackQSide: bool)

  /** A move as the engine records it: both squares, the piece that moved,
      the piece it took, and the three special-move flags. */
  datatype Move = Move(startRow: int, startCol: int, endRow: int, endCol: int,
                       pieceMoved: Piece, pieceCaptured: Piece,
                       enPassant: bool, isCastleMove: bool, promotedTo: Option<Kind>)
  {
    /** A pawn reaching the far rank for its colour. */
    predicate PawnPromotion() {
      (pieceMoved == Occupied(White, Pawn) && endRow == 0) ||
      (pieceMoved == Occupied(Black, Pawn) && endRow == 7)
    }

    predicate IsCaptured() {
      pieceCaptured != Empty
    }

    /** The four coordinates as the digits of one number. */
    function MoveId(): int {
      startRow * 1000 + startCol * 100 + endRow * 10 + endCol
    }

    predicate InBoard() {
      OnBoard(startRow, startCol) && OnBoard(endRow, endCol)
    }

    predicate IsKingMove() {
      pieceMoved.Occupied? && pieceMoved.kind == King
    }
  }

  /** The constructor Move(start, end, board, EnPassant, IsCastleMove,
      Promotion_Piece): the moved and captured pieces are read off the board,
      except that an en-passant capture takes a pawn of the other colour. */
  function NewMove(start: Square, end: Square, board: Grid,
                   enPassant: bool, isCastleMove: bool, promotion: Option<Kind>): (m: Move)
    requires OnBoard(start.0, start.1) && OnBoard(end.0, end.1)
    ensures m.InBoard() && (m.startRow, m.startCol) == start && (m.endRow, m.endCol) == end
    ensures m.pieceMoved == board[start.0][start.1]
    ensures !enPassant ==> m.pieceCaptured == board[end.0][end.1]
    ensures enPassant ==> m.pieceCaptured.Occupied? && m.pieceCaptured.kind == Pawn
                          && (m.pieceMoved == Occupied(Black, Pawn) <==> m.pieceCaptured.color == White)
  {
    var moved := board[start.0][start.1];
    var captured :=
      if enPassant then (if moved == Occupied(Black, Pawn) then Occupied(White, Pawn) else Occupied(Black, Pawn))
      else board[end.0][end.1];
    Move(start.0, start.1, end.0, end.1, moved, captured, enPassant, isCastleMove, promotion)
  }

  /** On the board, the move id determines the four coordinates. */
  lemma MoveIdInjective(a: Move, b: Move)
    requires a.InBoard() && b.InBoard()
    ensures a.MoveId() == b.MoveId() <==>
            (a.startRow, a.startCol, a.endRow, a.endCol) == (b.startRow, b.startCol, b.endRow, b.endCol)
  {
    if a.MoveId() == b.MoveId() {
      DigitsInjective(a.startRow, a.startCol, a.endRow, a.endCol, b.startRow, b.startCol, b.endRow, b.endCol);
    }
  }

  /** Four digits below 8 in the positions 1000, 100, 10 and 1 are read back
      unambiguously. */
  lemma DigitsInjective(w: int, x: int, y: int, z: int, w': int, x': int, y': int, z': int)
    requires 0 <= w < 8 && 0 <= x < 8 && 0 <= y < 8 && 0 <= z < 8
    requires 0 <= w' < 8 && 0 <= x' < 8 && 0 <= y' < 8 && 0 <= z' < 8
    requires w * 1000 + x * 100 + y * 10 + z == w' * 1000 + x' * 100 + y' * 10 + z'
    ensures w == w' && x == x' && y == y' && z == z'
  {
    assert (w - w') * 1000 == (x' - x) * 100 + (y' - y) * 10 + (z' - z);
    assert -1000 < (w - w') * 1000 < 1000;
    assert (x - x') * 100 == (y' - y) * 10 + (z' - z);
    assert -100 < (x - x') * 100 < 100;
    assert (y - y') * 10 == z' - z;
  }

  /** __eq__ with self = a: equal ids, and for a promotion also the same
      promotion piece. */
  function Equals(a: Move, b: Move): (r: bool)
    ensures a.InBoard() && b.InBoard() ==>
              (r <==> (a.startRow, a.startCol, a.endRow, a.endCol) == (b.startRow, b.startCol, b.endRow, b.endCol)
                      && (a.PawnPromotion() ==> a.promotedTo == b.promotedTo))
    ensures a == b ==> r
  {
    var r := if a.PawnPromotion() then a.MoveId() == b.MoveId() && a.promotedTo == b.promotedTo
             else a.MoveId() == b.MoveId();
    if a.InBoard() && b.InBoard() then MoveIdInjective(a, b); r else r
  }

  // The four lookup tables of the Move class.
  const RanksToRows: map<char, int> :=
    map['1' := 7, '2' := 6, '3' := 5, '4' := 4, '5' := 3, '6' := 2, '7' := 1, '8' := 0]
  const RowsToRanks: map<int, char> :=
    map[7 := '1', 6 := '2', 5 := '3', 4 := '4', 3 := '5', 2 := '6', 1 := '7', 0 := '8']
  const FilesToCols: map<char, int> :=
    map['a' := 0, 'b' := 1, 'c' := 2, 'd' := 3, 'e' := 4, 'f' := 5, 'g' := 6, 'h' := 7]
  const ColsToFiles: map<int, char> :=
    map[0 := 'a', 1 := 'b', 2 := 'c', 3 := 'd', 4 := 'e', 5 := 'f', 6 := 'g', 7 := 'h']

  /** The reverse row table inverts the rank table on the eight rows. */
  lemma RankTablesInverse(row: int)
    requires 0 <= row < 8
    ensures row in RowsToRanks && RowsToRanks[row] in RanksToRows && RanksToRows[RowsToRanks[row]] == row
    ensures RowsToRanks[row] as int - '0' as int == 8 - row
  {
    if row == 0 {} else if row == 1 {} else if row == 2 {} else if row == 3 {}
    else if row == 4 {} else if row == 5 {} else if row == 6 {} else {}
  }

  /** The reverse column table inverts the file table on the eight columns. */
  lemma FileTablesInverse(col: int)
    requires 0 <= col < 8
    ensures col in ColsToFiles && ColsToFiles[col] in FilesToCols && FilesToCols[ColsToFiles[col]] == col
    ensures ColsToFiles[col] == "abcdefgh"[col]
  {
    if col == 0 {} else if col == 1 {} else if col == 2 {} else if col == 3 {}
    else if col == 4 {} else if col == 5 {} else if col == 6 {} else {}
  }

  /** getRankFile: file letter then rank digit. */
  function GetRankFile(row: int, col: int): (s: string)
    requires OnBoard(row, col)
    ensures |s| == 2
    ensures s[0] == "abcdefgh"[col] && s[1] as int - '0' as int == 8 - row
    ensures s[0] in FilesToCols && FilesToCols[s[0]] == col
    ensures s[1] in RanksToRows && RanksToRows[s[1]] == row
  {
    RankTablesInverse(row);
    FileTablesInverse(col);
    [ColsToFiles[col], RowsToRanks[row]]
  }

  /** The letter the engine stores as the second character of a piece. */
  function KindLetter(k: Kind): char {
    match k
    case King => 'K'
    case Queen => 'Q'
    case Rook => 'R'
    case Bishop => 'B'
    case Knight => 'N'
    case Pawn => 'P'
  }

  function PieceLetter(p: Piece): char {
    if p.Empty? then '-' else KindLetter(p.kind)
  }

  /** __str__: the short algebraic text of a move. A capturing promotion
      prints as a capture, without the promotion piece. Only a castle prints
      as "0-0" or "0-0-0". */
  function ToString(m: Move): (s: string)
    requires m.InBoard()
    requires m.PawnPromotion() && !m.IsCaptured() ==> m.promotedTo.Some?
    ensures s == "0-0" <==> m.isCastleMove && m.endCol == 6
    ensures s == "0-0-0" <==> m.isCastleMove && m.endCol != 6
  {
    if m.isCastleMove then
      (if m.endCol == 6 then "0-0" else "0-0-0")
    else
      var endSquare := GetRankFile(m.endRow, m.endCol);
      FileTablesInverse(m.startCol);
      var s :=
        if PieceLetter(m.pieceMoved) == 'P' then
          if m.IsCaptured() then [ColsToFiles[m.startCol]] + "x" + endSquare
          else if m.PawnPromotion() then endSquare + "=" + [KindLetter(m.promotedTo.value)]
          else endSquare
        else
          var moveString := [PieceLetter(m.pieceMoved)];
          (if m.IsCaptured() then moveString + "x" else moveString) + endSquare;
      // a rank digit or a piece letter comes last, never the '0' of a castle
      assert s[|s| - 1] != '0';
      s
  }

  /** Outside castling, the text marks a capture with 'x' exactly when the
      move captures. */
  lemma ToStringCapture(m: Move)
    requires m.InBoard() && !m.isCastleMove
    requires m.PawnPromotion() && !m.IsCaptured() ==> m.promotedTo.Some?
    ensures 'x' in ToString(m) <==> m.IsCaptured()
  {
    var endSquare := GetRankFile(m.endRow, m.endCol);
    FileTablesInverse(m.startCol);
    assert 'x' !in endSquare;
  }

  /** Outside castling, the text ends on the end square, or on the end
      square, '=' and the promotion letter for a quiet promotion. */
  lemma ToStringEndSquare(m: Move)
    requires m.InBoard() && !m.isCastleMove
    requires m.PawnPromotion() && !m.IsCaptured() ==> m.promotedTo.Some?
    ensures var s := ToString(m);
            if m.PawnPromotion() && !m.IsCaptured() then s == GetRankFile(m.endRow, m.endCol) + ['=', KindLetter(m.promotedTo.value)]
            else |s| >= 2 && s[|s| - 2..] == GetRankFile(m.endRow, m.endCol)
  {
  }

  /** GetChessNotation: start square then end square, e.g. "e2e4". */
  function GetChessNotation(m: Move): (s: string)
    requires m.InBoard()
    ensures |s| == 4
    ensures s[0] in FilesToCols && FilesToCols[s[0]] == m.startCol
    ensures s[1] in RanksToRows && RanksToRows[s[1]] == m.startRow
    ensures s[2] in FilesToCols && FilesToCols[s[2]] == m.endCol
    ensures s[3] in RanksToRows && RanksToRows[s[3]] == m.endRow
  {
    GetRankFile(m.startRow, m.startCol) + GetRankFile(m.endRow, m.endCol)
  }
}
