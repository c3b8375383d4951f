/** What MakeMove and UndoMove do to the game state, as functions on a
    record of the fields they touch, and the round trip between them.
 */
module Bookkeeping {
  import opened Pieces
  import opened Moves

  /** The fields of GameState that MakeMove and UndoMove read or write. */
  datatype Record = Record(
    board: Grid,
    whiteToMove: bool,
    whitePieces: int,
    blackPieces: int,
    moveLog: seq<Move>,
    whiteKing: Square,
    blackKing: Square,
    checkmate: bool,
    stalemate: bool,
    enPassant: Option<Square>,
    enPassantLog: seq<Option<Square>>,
    rights: CastleRights,
    rightsLog: seq<CastleRights>)

  /** The state a new game starts in. */
  function Initial(): (s: Record)
    ensures Valid(s) && |s.moveLog| == 0
  {
    Record(InitialBoard(), true, 16, 16, [], (7, 4), (0, 4), false, false,
           None, [None], CastleRights(true, true, true, true), [CastleRights(true, true, true, true)])
  }

  /** A move MakeMove can carry out without an index leaving the grid: both
      squares on the board, a promotion piece for a promotion, and room on
      the row for the rook hop of a castle. */
  predicate Makeable(m: Move) {
    && m.InBoard()
    && (m.PawnPromotion() ==> m.promotedTo.Some?)
    && (m.isCastleMove ==> m.endCol + 1 < 8 && (m.endCol - m.startCol != 2 ==> 2 <= m.endCol))
  }

  /** One entry per move in both undo logs, besides the initial entry; the
      rights in force are the top of their log; every logged move was made. */
  ghost predicate Valid(s: Record) {
    && |s.enPassantLog| == |s.moveLog| + 1
    && |s.rightsLog| == |s.moveLog| + 1
    && s.rights == s.rightsLog[|s.rightsLog| - 1]
    && forall m :: m in s.moveLog ==> Makeable(m)
  }

  predicate IsKingSideCastle(m: Move) { m.endCol - m.startCol == 2 }

  /** A pawn moved two rows. */
  predicate DoublePawnPush(m: Move) {
    PieceLetter(m.pieceMoved) == 'P' && (m.startRow - m.endRow == 2 || m.endRow - m.startRow == 2)
  }

  /** The en-passant target MakeMove records for a move: after a double
      pawn push, the square the pawn passed over, one row from its start
      towards its end, on the column it arrived on. */
  function EnPassantAfter(m: Move): (ep: Option<Square>)
    ensures ep.Some? <==> DoublePawnPush(m)
    ensures ep.Some? ==> ep.value.0 == m.startRow + (if m.endRow > m.startRow then 1 else -1)
                         && ep.value.0 == m.endRow + (if m.endRow > m.startRow then -1 else 1)
                         && ep.value.1 == m.endCol
  {
    if DoublePawnPush(m) then Some(((m.startRow + m.endRow) / 2, m.endCol)) else None
  }

  /** After a straight double push over an empty square, the recorded
      target is that square, still empty, directly behind the pawn that
      arrived: where an enemy pawn capturing en passant lands. */
  lemma EnPassantTargetPassedOver(s: Record, m: Move)
    requires Makeable(m) && DoublePawnPush(m) && !m.enPassant && !m.isCastleMove
    requires m.endCol == m.startCol
    requires s.board[m.startRow + (if m.endRow > m.startRow then 1 else -1)][m.startCol] == Empty
    ensures var s' := Make(s, m);
            && s'.enPassant.Some?
            && var (r, c) := s'.enPassant.value;
            && OnBoard(r, c) && c == m.startCol
            && (r - m.startRow == 1 || m.startRow - r == 1) && (r - m.endRow == 1 || m.endRow - r == 1)
            && s'.board[r][c] == Empty
            && s'.board[m.endRow][m.endCol] == Arriving(m)
  {
  }

  /** Right r' is no stronger than right r, for all four rights. */
  predicate NoStronger(r': CastleRights, r: CastleRights) {
    && (r'.whiteKSide ==> r.whiteKSide) && (r'.blackKSide ==> r.blackKSide)
    && (r'.whiteQSide ==> r.whiteQSide) && (r'.blackQSide ==> r.blackQSide)
  }

  /** UpdateCastleRights. */
  function RevokedRights(cr: CastleRights, m: Move): (r: CastleRights)
    ensures NoStronger(r, cr)
  {
    // king moves
    var r :=
      if m.pieceMoved == Occupied(White, King) then cr.(whiteKSide := false, whiteQSide := false)
      else if m.pieceMoved == Occupied(Black, King) then cr.(blackKSide := false, blackQSide := false)
      else cr;
    // rooks leaving their corners
    var r :=
      if m.pieceMoved == Occupied(White, Rook) && m.startRow == 7 then
        (if m.startCol == 0 then r.(whiteQSide := false) else if m.startCol == 7 then r.(whiteKSide := false) else r)
      else r;
    var r :=
      if m.pieceMoved == Occupied(Black, Rook) && m.startRow == 0 then
        (if m.startCol == 0 then r.(blackQSide := false) else if m.startCol == 7 then r.(blackKSide := false) else r)
      else r;
    // rooks captured
    if m.pieceCaptured == Occupied(White, Rook) then
      (if m.endCol == 0 then r.(whiteQSide := false) else if m.endCol == 7 then r.(whiteKSide := false) else r)
    else if m.pieceCaptured == Occupied(Black, Rook) then
      (if m.endCol == 0 then r.(blackQSide := false) else if m.endCol == 7 then r.(blackKSide := false) else r)
    else r
  }

  /** Each right survives a move exactly when its king did not move, its
      rook did not leave its corner, and no rook of that colour was captured
      on that side's edge column (on any row). */
  lemma RevokedRightsExactly(cr: CastleRights, m: Move)
    ensures var r := RevokedRights(cr, m);
      && (r.whiteKSide <==> cr.whiteKSide && m.pieceMoved != Occupied(White, King)
                            && !(m.pieceMoved == Occupied(White, Rook) && (m.startRow, m.startCol) == (7, 7))
                            && !(m.pieceCaptured == Occupied(White, Rook) && m.endCol == 7))
      && (r.whiteQSide <==> cr.whiteQSide && m.pieceMoved != Occupied(White, King)
                            && !(m.pieceMoved == Occupied(White, Rook) && (m.startRow, m.startCol) == (7, 0))
                            && !(m.pieceCaptured == Occupied(White, Rook) && m.endCol == 0))
      && (r.blackKSide <==> cr.blackKSide && m.pieceMoved != Occupied(Black, King)
                            && !(m.pieceMoved == Occupied(Black, Rook) && (m.startRow, m.startCol) == (0, 7))
                            && !(m.pieceCaptured == Occupied(Black, Rook) && m.endCol == 7))
      && (r.blackQSide <==> cr.blackQSide && m.pieceMoved != Occupied(Black, King)
                            && !(m.pieceMoved == Occupied(Black, Rook) && (m.startRow, m.startCol) == (0, 0))
                            && !(m.pieceCaptured == Occupied(Black, Rook) && m.endCol == 0))
  {
  }

  /** The piece MakeMove leaves on the end square. */
  function Arriving(m: Move): Piece
    requires m.PawnPromotion() ==> m.promotedTo.Some?
  {
    if m.PawnPromotion() then Occupied(m.pieceMoved.color, m.promotedTo.value) else m.pieceMoved
  }

  /** The rook hop of a castle, done after the king has moved: on the king's
      side the rook lands left of the king, on the queen's side right of it. */
  function RookHop(b: Grid, m: Move): Grid
    requires Makeable(m) && m.isCastleMove
  {
    if IsKingSideCastle(m) then
      Put(Put(b, m.endRow, m.endCol - 1, b[m.endRow][m.endCol + 1]), m.endRow, m.endCol + 1, Empty)
    else
      Put(Put(b, m.endRow, m.endCol + 1, b[m.endRow][m.endCol - 2]), m.endRow, m.endCol - 2, Empty)
  }

  /** The rook hop taken back. */
  function RookHopBack(b: Grid, m: Move): Grid
    requires Makeable(m) && m.isCastleMove
  {
    if IsKingSideCastle(m) then
      Put(Put(b, m.endRow, m.endCol + 1, b[m.endRow][m.endCol - 1]), m.endRow, m.endCol - 1, Empty)
    else
      Put(Put(b, m.endRow, m.endCol - 2, b[m.endRow][m.endCol + 1]), m.endRow, m.endCol + 1, Empty)
  }

  /** The grid after MakeMove. */
  function MakeBoard(b: Grid, m: Move): Grid
    requires Makeable(m)
  {
    var b := Put(Put(b, m.startRow, m.startCol, Empty), m.endRow, m.endCol, Arriving(m));
    var b := if m.enPassant then Put(b, m.startRow, m.endCol, Empty) else b;
    if m.isCastleMove then RookHop(b, m) else b
  }

  /** The grid after UndoMove takes m off the log. */
  function UndoBoard(b: Grid, m: Move): Grid
    requires Makeable(m)
  {
    var b := Put(Put(b, m.startRow, m.startCol, m.pieceMoved), m.endRow, m.endCol, m.pieceCaptured);
    var b := if m.enPassant then Put(Put(b, m.endRow, m.endCol, Empty), m.startRow, m.endCol, m.pieceCaptured) else b;
    if m.isCastleMove then RookHopBack(b, m) else b
  }

  /** MakeMove. */
  function Make(s: Record, m: Move): (s': Record)
    requires Makeable(m)
    ensures s'.moveLog == s.moveLog + [m] && s'.whiteToMove == !s.whiteToMove
    ensures NoStronger(s'.rights, s.rights)
  {
    var rights := RevokedRights(s.rights, m);
    var ep := EnPassantAfter(m);
    s.(board := MakeBoard(s.board, m),
       moveLog := s.moveLog + [m],
       whitePieces := if HasColor(m.pieceCaptured, White) then s.whitePieces - 1 else s.whitePieces,
       blackPieces := if HasColor(m.pieceCaptured, Black) then s.blackPieces - 1 else s.blackPieces,
       whiteToMove := !s.whiteToMove,
       whiteKing := if m.pieceMoved == Occupied(White, King) then (m.endRow, m.endCol) else s.whiteKing,
       blackKing := if m.pieceMoved == Occupied(Black, King) then (m.endRow, m.endCol) else s.blackKing,
       enPassant := ep,
       enPassantLog := s.enPassantLog + [ep],
       rights := rights,
       rightsLog := s.rightsLog + [rights])
  }

  /** MakeMove keeps one entry per move in both undo logs, keeps the rights
      in force on top of their log, and logs only makeable moves. */
  lemma MakeValid(s: Record, m: Move)
    requires Valid(s) && Makeable(m)
    ensures Valid(Make(s, m))
  {
    var s' := Make(s, m);
    assert forall x :: x in s'.moveLog ==> x in s.moveLog || x == m;
  }

  /** UndoMove. */
  function Undo(s: Record): (s': Record)
    requires Valid(s)
    ensures Valid(s')
    ensures |s.moveLog| == 0 ==> s' == s
    ensures |s.moveLog| > 0 ==>
              && s'.moveLog == s.moveLog[..|s.moveLog| - 1]
              && s'.enPassantLog == s.enPassantLog[..|s.enPassantLog| - 1]
              && s'.rightsLog == s.rightsLog[..|s.rightsLog| - 1]
              && s'.whiteToMove == !s.whiteToMove
              && !s'.checkmate && !s'.stalemate
    ensures |s.moveLog| > 0 && DoublePawnPush(s.moveLog[|s.moveLog| - 1]) ==> s'.enPassant == None
    ensures |s.moveLog| > 0 && !DoublePawnPush(s.moveLog[|s.moveLog| - 1]) ==> s'.enPassant == s.enPassantLog[|s.enPassantLog| - 2]
  {
    if |s.moveLog| == 0 then s
    else
      var m := s.moveLog[|s.moveLog| - 1];
      var epLog := s.enPassantLog[..|s.enPassantLog| - 1];
      var rightsLog := s.rightsLog[..|s.rightsLog| - 1];
      assert m in s.moveLog;
      assert forall x :: x in s.moveLog[..|s.moveLog| - 1] ==> x in s.moveLog;
      s.(board := UndoBoard(s.board, m),
         moveLog := s.moveLog[..|s.moveLog| - 1],
         whitePieces := if HasColor(m.pieceCaptured, White) then s.whitePieces + 1 else s.whitePieces,
         blackPieces := if HasColor(m.pieceCaptured, Black) then s.blackPieces + 1 else s.blackPieces,
         whiteToMove := !s.whiteToMove,
         whiteKing := if m.pieceMoved == Occupied(White, King) then (m.startRow, m.startCol) else s.whiteKing,
         blackKing := if m.pieceMoved == Occupied(Black, King) then (m.startRow, m.startCol) else s.blackKing,
         enPassant := if DoublePawnPush(m) then None else epLog[|epLog| - 1],
         enPassantLog := epLog,
         rights := rightsLog[|rightsLog| - 1],
         rightsLog := rightsLog,
         checkmate := false,
         stalemate := false)
  }

  /** A move that matches the position it is made in: the pieces it records
      are the ones on the grid, an en-passant capture goes diagonally onto an
      empty square beside the captured pawn, a castle is a two-column king
      hop over an empty square, and a king move starts where its king is
      recorded. */
  ghost predicate Applicable(s: Record, m: Move) {
    && Makeable(m)
    && (m.startRow, m.startCol) != (m.endRow, m.endCol)
    && s.board[m.startRow][m.startCol] == m.pieceMoved
    && (if m.enPassant then
          && m.startRow != m.endRow && m.startCol != m.endCol
          && s.board[m.endRow][m.endCol] == Empty
          && s.board[m.startRow][m.endCol] == m.pieceCaptured
        else s.board[m.endRow][m.endCol] == m.pieceCaptured)
    && (m.isCastleMove ==>
          && !m.enPassant && m.startRow == m.endRow
          && if IsKingSideCastle(m) then s.board[m.endRow][m.endCol - 1] == Empty
             else m.startCol - m.endCol == 2 && s.board[m.endRow][m.endCol + 1] == Empty)
    && (m.pieceMoved == Occupied(White, King) ==> s.whiteKing == (m.startRow, m.startCol))
    && (m.pieceMoved == Occupied(Black, King) ==> s.blackKing == (m.startRow, m.startCol))
  }

  /** Two grids that agree on every square are the same grid. */
  lemma SameGrid(a: Grid, b: Grid)
    requires forall r, c :: OnBoard(r, c) ==> a[r][c] == b[r][c]
    ensures a == b
  {
    forall r | 0 <= r < 8
      ensures a[r] == b[r]
    {
      assert forall c :: 0 <= c < 8 ==> a[r][c] == b[r][c];
    }
  }

  /** UndoBoard puts back every square MakeBoard changed. */
  lemma {:induction false} BoardRoundTrip(s: Record, m: Move)
    requires Applicable(s, m)
    ensures UndoBoard(MakeBoard(s.board, m), m) == s.board
  {
    var after := UndoBoard(MakeBoard(s.board, m), m);
    forall r, c | OnBoard(r, c)
      ensures after[r][c] == s.board[r][c]
    {
    }
    SameGrid(after, s.board);
  }

  /** MakeMove then UndoMove restores every field, except that both game-end
      flags are cleared and the en-passant target is taken from the top of
      its log, or cleared when the move was a two-square pawn advance. */
  lemma MakeUndoRoundTrip(s: Record, m: Move)
    requires Valid(s) && Applicable(s, m)
    ensures Undo(Make(s, m)) ==
            s.(enPassant := if DoublePawnPush(m) then None else s.enPassantLog[|s.enPassantLog| - 1],
               checkmate := false, stalemate := false)
  {
    var made := Make(s, m);
    MakeValid(s, m);
    assert made.moveLog[|made.moveLog| - 1] == m;
    assert made.moveLog[..|made.moveLog| - 1] == s.moveLog;
    assert made.enPassantLog[..|made.enPassantLog| - 1] == s.enPassantLog;
    assert made.rightsLog[..|made.rightsLog| - 1] == s.rightsLog;
    BoardRoundTrip(s, m);
  }

  // Piece counts. MakeMove takes one off a side's count when it captures
  // a piece of that side; UndoMove puts it back.

  function WhiteUnit(p: Piece): int { if HasColor(p, White) then 1 else 0 }
  function BlackUnit(p: Piece): int { if HasColor(p, Black) then 1 else 0 }

  /** The number of pieces of colour c on the grid. */
  function PieceCount(b: Grid, c: Color): (n: int)
    ensures n >= 0
  {
    var f := if c == White then WhiteUnit else BlackUnit;
    GridSumNonNegative(b, f);
    GridSum(b, f)
  }

  /** Both counters agree with the grid. */
  predicate Counted(s: Record) {
    s.whitePieces == PieceCount(s.board, White) && s.blackPieces == PieceCount(s.board, Black)
  }

  /** OnlyKingsPresent. */
  predicate OnlyKingsPresent(s: Record) {
    s.whitePieces == 1 && s.blackPieces == 1
  }

  /** A new game starts with sixteen pieces a side, as its counters say. */
  lemma InitialCounted()
    ensures Counted(Initial()) && !OnlyKingsPresent(Initial())
  {
    var b := InitialBoard();
    UniformRowSum(b[0], WhiteUnit, 0); UniformRowSum(b[0], BlackUnit, 1);
    UniformRowSum(b[1], WhiteUnit, 0); UniformRowSum(b[1], BlackUnit, 1);
    UniformRowSum(b[2], WhiteUnit, 0); UniformRowSum(b[2], BlackUnit, 0);
    UniformRowSum(b[3], WhiteUnit, 0); UniformRowSum(b[3], BlackUnit, 0);
    UniformRowSum(b[4], WhiteUnit, 0); UniformRowSum(b[4], BlackUnit, 0);
    UniformRowSum(b[5], WhiteUnit, 0); UniformRowSum(b[5], BlackUnit, 0);
    UniformRowSum(b[6], WhiteUnit, 1); UniformRowSum(b[6], BlackUnit, 0);
    UniformRowSum(b[7], WhiteUnit, 1); UniformRowSum(b[7], BlackUnit, 0);
    BandSum(b, WhiteUnit, 6, 8);
    BandSum(b, BlackUnit, 0, 2);
  }

  /** Rows lo to hi - 1 hold eight pieces that count, the others none. */
  lemma {:induction false} BandSum(rows: seq<seq<Piece>>, f: Piece -> int, lo: int, hi: int)
    requires 0 <= lo <= hi
    requires forall r :: 0 <= r < |rows| ==> RowSum(rows[r], f) == if lo <= r < hi then 8 else 0
    ensures GridSum(rows, f) == 8 * (if |rows| <= lo then 0 else if |rows| <= hi then |rows| - lo else hi - lo)
    decreases |rows|
  {
    if rows != [] {
      var n := |rows|;
      assert forall r :: 0 <= r < n - 1 ==> rows[..n - 1][r] == rows[r];
      BandSum(rows[..n - 1], f, lo, hi);
    }
  }

  /** A row whose every square is worth k sums to k per square. */
  lemma {:induction false} UniformRowSum(row: seq<Piece>, f: Piece -> int, k: int)
    requires forall c :: 0 <= c < |row| ==> f(row[c]) == k
    ensures RowSum(row, f) == |row| * k
    decreases |row|
  {
    if row != [] {
      UniformRowSum(row[..|row| - 1], f, k);
    }
  }

  /** MakeMove changes any total over the grid by what the move took off
      (the moved and the captured piece) and what it put on (the arriving
      piece); a rook hop only moves a rook from one square to another. */
  lemma MakeBoardSum(s: Record, m: Move, f: Piece -> int)
    requires Applicable(s, m)
    ensures GridSum(MakeBoard(s.board, m), f)
            == GridSum(s.board, f) - f(m.pieceMoved) - f(m.pieceCaptured) + f(Arriving(m)) + f(Empty)
  {
    var b := s.board;
    var b1 := Put(b, m.startRow, m.startCol, Empty);
    PutSum(b, m.startRow, m.startCol, Empty, f);
    var b2 := Put(b1, m.endRow, m.endCol, Arriving(m));
    PutSum(b1, m.endRow, m.endCol, Arriving(m), f);
    var b3 := if m.enPassant then Put(b2, m.startRow, m.endCol, Empty) else b2;
    if m.enPassant {
      PutSum(b2, m.startRow, m.endCol, Empty, f);
    }
    if m.isCastleMove {
      var (from, to) := if IsKingSideCastle(m) then (m.endCol + 1, m.endCol - 1) else (m.endCol - 2, m.endCol + 1);
      var b4 := Put(b3, m.endRow, to, b3[m.endRow][from]);
      PutSum(b3, m.endRow, to, b3[m.endRow][from], f);
      PutSum(b4, m.endRow, from, Empty, f);
    }
  }

  /** MakeMove keeps both counters equal to the number of pieces of their
      colour on the grid. */
  lemma MakeCounted(s: Record, m: Move)
    requires Applicable(s, m) && Counted(s)
    ensures Counted(Make(s, m))
  {
    MakeBoardSum(s, m, WhiteUnit);
    MakeBoardSum(s, m, BlackUnit);
  }

  /** When both kings stand where they are recorded and the counters agree
      with the grid, OnlyKingsPresent holds exactly when every other square
      is empty. */
  lemma OnlyKingsMeans(s: Record)
    requires Counted(s) && OnBoard(s.whiteKing.0, s.whiteKing.1) && OnBoard(s.blackKing.0, s.blackKing.1)
    requires s.board[s.whiteKing.0][s.whiteKing.1] == Occupied(White, King)
    requires s.board[s.blackKing.0][s.blackKing.1] == Occupied(Black, King)
    ensures OnlyKingsPresent(s) <==>
            forall r, c :: OnBoard(r, c) && (r, c) != s.whiteKing && (r, c) != s.blackKing ==> s.board[r][c] == Empty
  {
    var b := s.board;
    var (wr, wc) := s.whiteKing;
    var (br, bc) := s.blackKing;
    var rest := Put(Put(b, wr, wc, Empty), br, bc, Empty);
    PutSum(b, wr, wc, Empty, WhiteUnit);
    PutSum(Put(b, wr, wc, Empty), br, bc, Empty, WhiteUnit);
    PutSum(b, wr, wc, Empty, BlackUnit);
    PutSum(Put(b, wr, wc, Empty), br, bc, Empty, BlackUnit);
    assert forall r, c :: OnBoard(r, c) && (r, c) != s.whiteKing && (r, c) != s.blackKing ==> rest[r][c] == b[r][c];
    if OnlyKingsPresent(s) {
      forall r, c | OnBoard(r, c) && (r, c) != s.whiteKing && (r, c) != s.blackKing
        ensures b[r][c] == Empty
      {
        if b[r][c] != Empty {
          var f := if b[r][c].color == White then WhiteUnit else BlackUnit;
          PutSum(rest, r, c, Empty, f);
          GridSumNonNegative(Put(rest, r, c, Empty), f);
        }
      }
    }
    if forall r, c :: OnBoard(r, c) && (r, c) != s.whiteKing && (r, c) != s.blackKing ==> b[r][c] == Empty {
      EmptiedSum(rest, WhiteUnit);
      EmptiedSum(rest, BlackUnit);
    }
  }

  /** A grid of empty squares sums to nothing when an empty square counts nothing. */
  lemma EmptiedSum(b: Grid, f: Piece -> int)
    requires f(Empty) == 0
    requires forall r, c :: OnBoard(r, c) ==> b[r][c] == Empty
    ensures GridSum(b, f) == 0
  {
    ZeroGridSum(b, f);
  }

  lemma {:induction false} ZeroGridSum(rows: seq<seq<Piece>>, f: Piece -> int)
    requires forall r, c :: 0 <= r < |rows| && 0 <= c < |rows[r]| ==> f(rows[r][c]) == 0
    ensures GridSum(rows, f) == 0
    decreases |rows|
  {
    if rows != [] {
      var n := |rows|;
      ZeroGridSum(rows[..n - 1], f);
      ZeroRowSum(rows[n - 1], f);
    }
  }

  lemma {:induction false} ZeroRowSum(row: seq<Piece>, f: Piece -> int)
    requires forall c :: 0 <= c < |row| ==> f(row[c]) == 0
    ensures RowSum(row, f) == 0
    decreases |row|
  {
    if row != [] {
      ZeroRowSum(row[..|row| - 1], f);
    }
  }

  /** A sequence of makes never strengthens a castling right. */
  lemma {:induction false} RightsOnlyShrink(s: Record, ms: seq<Move>)
    requires forall m :: m in ms ==> Makeable(m)
    ensures NoStronger(MakeAll(s, ms).rights, s.rights)
    decreases |ms|
  {
    if ms != [] {
      assert forall m :: m in ms[1..] ==> m in ms;
      RightsOnlyShrink(Make(s, ms[0]), ms[1..]);
    }
  }

  /** The moves of ms made in order. */
  function MakeAll(s: Record, ms: seq<Move>): Record
    requires forall m :: m in ms ==> Makeable(m)
    decreases |ms|
  {
    if ms == [] then s
    else
      assert forall m :: m in ms[1..] ==> m in ms;
      MakeAll(Make(s, ms[0]), ms[1..])
  }
}
