/** What the move generators promise about the moves they produce, and what
    the backward list.remove loops of GetValidMoves compute.
 */
module GenerationFacts {
  import opened Pieces
  import opened Moves
  import opened Generation

  // ---------------------------------------------------------------------
  // Where generated moves come from

  /** Every move names two squares and carries the piece on its start square. */
  predicate FromBoard(ms: seq<Move>, b: Grid) {
    forall m :: m in ms ==> m.InBoard() && m.pieceMoved == b[m.startRow][m.startCol]
  }

  /** The squares from distance i up to (not including) distance j along
      the ray that lie on the board are empty. */
  predicate ClearBetween(b: Grid, row: int, col: int, d: (int, int), i: int, j: int) {
    forall k :: i <= k < j && OnBoard(RayPoint(row, col, d, k).0, RayPoint(row, col, d, k).1)
                ==> b[RayPoint(row, col, d, k).0][RayPoint(row, col, d, k).1] == Empty
  }

  /** A rook, bishop or queen moves along the ray only when the pin allows
      that direction, onto an empty square or the first piece it meets, and
      then only when that piece is an enemy's. */
  lemma {:induction false} RayMovesSound(sc: Scene, row: int, col: int, d: (int, int), pinned: bool,
                                         pinDir: (int, int), i: nat, m: Move)
    requires OnBoard(row, col) && 1 <= i <= 8
    requires m in RayMoves(sc, row, col, d, pinned, pinDir, i)
    ensures AlongPin(pinned, pinDir, d)
    ensures m.InBoard() && (m.startRow, m.startCol) == (row, col) && m.pieceMoved == sc.board[row][col]
    ensures sc.board[m.endRow][m.endCol] == Empty || HasColor(sc.board[m.endRow][m.endCol], sc.Enemy())
    ensures exists j :: i <= j < 8 && (m.endRow, m.endCol) == RayPoint(row, col, d, j)
                        && ClearBetween(sc.board, row, col, d, i, j)
    decreases 8 - i
  {
    var later := RayStep(sc, row, col, d, pinned, pinDir, i, m);
    if later {
      RayMovesSound(sc, row, col, d, pinned, pinDir, i + 1, m);
      var j :| i + 1 <= j < 8 && (m.endRow, m.endCol) == RayPoint(row, col, d, j)
               && ClearBetween(sc.board, row, col, d, i + 1, j);
      ClearBefore(sc.board, row, col, d, i, j);
    } else {
      assert ClearBetween(sc.board, row, col, d, i, i);
    }
  }

  /** One square of the ray: either m is the move onto square i, or m
      comes later on the ray, past a square that is off the board or empty. */
  lemma RayStep(sc: Scene, row: int, col: int, d: (int, int), pinned: bool, pinDir: (int, int), i: nat, m: Move)
    returns (later: bool)
    requires OnBoard(row, col) && 1 <= i <= 8
    requires m in RayMoves(sc, row, col, d, pinned, pinDir, i)
    ensures i < 8
    ensures OnBoard(RayPoint(row, col, d, i).0, RayPoint(row, col, d, i).1) ==> AlongPin(pinned, pinDir, d)
    ensures later ==> m in RayMoves(sc, row, col, d, pinned, pinDir, i + 1)
    ensures later && OnBoard(RayPoint(row, col, d, i).0, RayPoint(row, col, d, i).1)
            ==> sc.board[RayPoint(row, col, d, i).0][RayPoint(row, col, d, i).1] == Empty
    ensures !later ==> && AlongPin(pinned, pinDir, d)
                       && OnBoard(RayPoint(row, col, d, i).0, RayPoint(row, col, d, i).1)
                       && m == NewMove((row, col), RayPoint(row, col, d, i), sc.board, false, false, None)
                       && (sc.board[m.endRow][m.endCol] == Empty || HasColor(sc.board[m.endRow][m.endCol], sc.Enemy()))
  {
    var sq := RayPoint(row, col, d, i);
    if OnBoard(sq.0, sq.1) {
      later := sc.board[sq.0][sq.1] == Empty && m != NewMove((row, col), sq, sc.board, false, false, None);
    } else {
      later := true;
    }
  }

  /** An empty (or off-board) square in front of a clear stretch extends it. */
  lemma ClearBefore(b: Grid, row: int, col: int, d: (int, int), i: int, j: int)
    requires ClearBetween(b, row, col, d, i + 1, j)
    requires OnBoard(RayPoint(row, col, d, i).0, RayPoint(row, col, d, i).1)
             ==> b[RayPoint(row, col, d, i).0][RayPoint(row, col, d, i).1] == Empty
    ensures ClearBetween(b, row, col, d, i, j)
  {
  }

  /** The rays of a slider, one direction after the other. */
  lemma {:induction false} SliderMovesFromBoard(sc: Scene, row: int, col: int, dirs: seq<(int, int)>,
                                                pinned: bool, pinDir: (int, int))
    requires OnBoard(row, col)
    ensures FromBoard(SliderMoves(sc, row, col, dirs, pinned, pinDir), sc.board)
    decreases |dirs|
  {
    if dirs != [] {
      SliderMovesFromBoard(sc, row, col, dirs[1..], pinned, pinDir);
      forall m | m in RayMoves(sc, row, col, dirs[0], pinned, pinDir, 1)
        ensures m.InBoard() && m.pieceMoved == sc.board[m.startRow][m.startCol]
      {
        RayMovesSound(sc, row, col, dirs[0], pinned, pinDir, 1, m);
      }
    }
  }

  /** A knight jumps only when it is not pinned, by one of the eight
      offsets, onto a square no allied piece holds. */
  lemma {:induction false} KnightJumpsSound(sc: Scene, row: int, col: int, pinned: bool, k: nat, m: Move)
    requires OnBoard(row, col) && k <= 8
    requires m in KnightJumps(sc, row, col, pinned, k)
    ensures !pinned
    ensures m.InBoard() && (m.startRow, m.startCol) == (row, col) && m.pieceMoved == sc.board[row][col]
    ensures !HasColor(sc.board[m.endRow][m.endCol], sc.Ally())
    ensures exists j :: k <= j < 8 && (m.endRow - row, m.endCol - col) == KnightOffsets[j]
    decreases 8 - k
  {
    if m !in KnightJump(sc, row, col, pinned, k) {
      KnightJumpsSound(sc, row, col, pinned, k + 1, m);
    }
  }

  /** A king steps one square, onto a square no allied piece holds and on
      which the pins-and-checks scan finds it in no check: no enemy piece
      attacks it along a clear ray and no enemy knight is a jump away. */
  lemma {:induction false} KingStepsSound(sc: Scene, row: int, col: int, k: nat, m: Move)
    requires OnBoard(row, col) && k <= 8
    requires m in KingSteps(sc, row, col, k)
    ensures m.InBoard() && (m.startRow, m.startCol) == (row, col) && m.pieceMoved == sc.board[row][col]
    ensures !HasColor(sc.board[m.endRow][m.endCol], sc.Ally())
    ensures !Attacked(sc.board, sc.whiteToMove, m.endRow, m.endCol)
    ensures !Threatened(sc.board, sc.whiteToMove, m.endRow, m.endCol)
    ensures exists j :: k <= j < 8 && (m.endRow - row, m.endCol - col) == (KingRowMoves[j], KingColMoves[j])
    decreases 8 - k
  {
    assert k < 8;
    if m in KingStep(sc, row, col, k) {
      KingStepSound(sc, row, col, k, m);
    } else {
      KingStepsSound(sc, row, col, k + 1, m);
    }
  }

  lemma KingStepSound(sc: Scene, row: int, col: int, k: nat, m: Move)
    requires OnBoard(row, col) && k < 8
    requires m in KingStep(sc, row, col, k)
    ensures m.InBoard() && (m.startRow, m.startCol) == (row, col) && m.pieceMoved == sc.board[row][col]
    ensures (m.endRow - row, m.endCol - col) == (KingRowMoves[k], KingColMoves[k])
    ensures !HasColor(sc.board[m.endRow][m.endCol], sc.Ally())
    ensures !Attacked(sc.board, sc.whiteToMove, m.endRow, m.endCol)
    ensures !Threatened(sc.board, sc.whiteToMove, m.endRow, m.endCol)
  {
    AttackedIsThreatened(sc.board, sc.whiteToMove, m.endRow, m.endCol);
  }

  /** A pawn advances straight ahead onto empty squares, when the pin
      allows moving forward; two squares only from its start row; and the
      move carries a promotion piece exactly when it reaches the last row. */
  lemma PawnAdvancesSound(sc: Scene, row: int, col: int, pinned: bool, pinDir: (int, int), m: Move)
    requires OnBoard(row, col) && OnBoard(row + Forward(sc.whiteToMove), col)
    requires m in PawnAdvances(sc, row, col, pinned, pinDir)
    ensures !pinned || pinDir == (Forward(sc.whiteToMove), 0)
    ensures m.InBoard() && (m.startRow, m.startCol) == (row, col) && m.pieceMoved == sc.board[row][col]
    ensures m.endCol == col && !m.enPassant
    ensures sc.board[row + Forward(sc.whiteToMove)][col] == Empty && sc.board[m.endRow][col] == Empty
    ensures || m.endRow == row + Forward(sc.whiteToMove)
            || (m.endRow == row + 2 * Forward(sc.whiteToMove) && row == PawnStartRow(sc.whiteToMove))
    ensures m.promotedTo.Some? <==> LastRow(sc.whiteToMove, m.endRow)
  {
    var r := row + Forward(sc.whiteToMove);
    if LastRow(sc.whiteToMove, r) && m in PromotionMoves(sc.board, (row, col), (r, col)) {
      var k :| 0 <= k < 4 && PromotionMoves(sc.board, (row, col), (r, col))[k] == m;
    }
  }

  /** A pawn captures diagonally forward, when the pin allows that
      diagonal: an enemy piece (with a promotion piece exactly on the last
      row), or en passant onto the recorded target when the exposure test
      allows it. */
  lemma PawnCapturesSound(sc: Scene, row: int, col: int, pinned: bool, pinDir: (int, int), side: int, m: Move)
    requires OnBoard(row, col) && OnBoard(row + Forward(sc.whiteToMove), col)
    requires OnBoard(sc.AllyKing().0, sc.AllyKing().1)
    requires m in PawnCaptures(sc, row, col, pinned, pinDir, side)
    ensures 0 <= col + side <= 7 && (!pinned || pinDir == (Forward(sc.whiteToMove), side))
    ensures m.InBoard() && (m.startRow, m.startCol) == (row, col) && m.pieceMoved == sc.board[row][col]
    ensures (m.endRow, m.endCol) == (row + Forward(sc.whiteToMove), col + side)
    ensures m.enPassant ==> sc.enPassant == Some((m.endRow, m.endCol)) && EnPassantAllowed(sc, row, col, side)
    ensures !m.enPassant ==> HasColor(sc.board[m.endRow][m.endCol], sc.Enemy())
                             && (m.promotedTo.Some? <==> LastRow(sc.whiteToMove, m.endRow))
  {
    var to := (row + Forward(sc.whiteToMove), col + side);
    if m in PawnTakes(sc, row, col, side) && LastRow(sc.whiteToMove, to.0) {
      var k :| 0 <= k < 4 && PromotionMoves(sc.board, (row, col), to)[k] == m;
    }
  }

  /** Castling to one side: the king moves two squares towards the rook,
      and only when neither square it crosses or lands on is attacked. */
  lemma SafeCastleSound(sc: Scene, pins: seq<Line>, row: int, col: int, dir: int, m: Move)
    requires WellPlaced(sc) && OnBoard(row, col) && OnBoard(row, col + 2 * dir)
    requires m in SafeCastle(sc, pins, row, col, dir).0
    ensures m.isCastleMove && m.InBoard() && (m.startRow, m.startCol) == (row, col)
    ensures (m.endRow, m.endCol) == (row, col + 2 * dir) && m.pieceMoved == sc.board[row][col]
    ensures !UnderAttack(sc, pins, row, col + dir).1
    ensures !UnderAttack(sc, UnderAttack(sc, pins, row, col + dir).0, row, col + 2 * dir).1
  {
  }

  /** GetCastleMoves: no castle at all while the king's square is attacked;
      a king-side castle needs the right and two empty squares, a
      queen-side castle the right and three. */
  lemma CastleMovesSound(sc: Scene, rights: CastleRights, pins: seq<Line>, row: int, col: int, m: Move)
    requires WellPlaced(sc) && OnBoard(row, col) && col == sc.AllyKing().1 && CastleRoom(sc, rights)
    requires m in CastleMoves(sc, rights, pins, row, col).0
    ensures !UnderAttack(sc, pins, row, col).1
    ensures m.isCastleMove && m.InBoard() && (m.startRow, m.startCol) == (row, col) && m.endRow == row
    ensures m.pieceMoved == sc.board[row][col]
    ensures m.endCol == col + 2 || m.endCol == col - 2
    ensures m.endCol == col + 2 ==>
              && (if sc.whiteToMove then rights.whiteKSide else rights.blackKSide)
              && sc.board[row][col + 1] == Empty && sc.board[row][col + 2] == Empty
    ensures m.endCol == col - 2 ==>
              && (if sc.whiteToMove then rights.whiteQSide else rights.blackQSide)
              && sc.board[row][col - 1] == Empty && sc.board[row][col - 2] == Empty && sc.board[row][col - 3] == Empty
  {
    var home := UnderAttack(sc, pins, row, col);
    var kSide := if sc.whiteToMove then rights.whiteKSide else rights.blackKSide;
    var qSide := if sc.whiteToMove then rights.whiteQSide else rights.blackQSide;
    var king := if kSide then KingSideCastleMoves(sc, home.0, row, col) else ([], home.0);
    if m in king.0 {
      SafeCastleSound(sc, home.0, row, col, 1, m);
    } else {
      SafeCastleSound(sc, king.1, row, col, -1, m);
    }
  }

  /** The pawn generator: advances, then captures to the left and right. */
  lemma PawnMovesFromBoard(sc: Scene, pins: seq<Line>, row: int, col: int)
    requires OnBoard(row, col) && OnBoard(row + Forward(sc.whiteToMove), col)
    requires OnBoard(sc.AllyKing().0, sc.AllyKing().1)
    ensures FromBoard(PawnMoves(sc, pins, row, col).0, sc.board)
  {
    var look := TakePin(pins, row, col, true);
    forall m | m in PawnMoves(sc, pins, row, col).0
      ensures m.InBoard() && m.pieceMoved == sc.board[m.startRow][m.startCol]
    {
      if m in PawnAdvances(sc, row, col, look.pinned, look.dir) {
        PawnAdvancesSound(sc, row, col, look.pinned, look.dir, m);
      } else if m in PawnCaptures(sc, row, col, look.pinned, look.dir, -1) {
        PawnCapturesSound(sc, row, col, look.pinned, look.dir, -1, m);
      } else {
        PawnCapturesSound(sc, row, col, look.pinned, look.dir, 1, m);
      }
    }
  }

  /** Whatever piece stands on (row, col), its moves start there. */
  lemma PieceMovesFromBoard(sc: Scene, pins: seq<Line>, row: int, col: int)
    requires WellPlaced(sc) && OnBoard(row, col)
    ensures FromBoard(PieceMoves(sc, pins, row, col).0, sc.board)
  {
    var p := sc.board[row][col];
    var look := TakePin(pins, row, col, true);
    if HasColor(p, sc.Ally()) {
      match p.kind
      case Pawn =>
        assert NoPawnOnLastRank(sc.board, col);
        PawnMovesFromBoard(sc, pins, row, col);
      case Rook =>
        var rookLook := TakePin(pins, row, col, PieceLetter(p) != 'Q');
        SliderMovesFromBoard(sc, row, col, RookDirections, rookLook.pinned, rookLook.dir);
      case Knight =>
        forall m | m in KnightJumps(sc, row, col, look.pinned, 0)
          ensures m.InBoard() && m.pieceMoved == sc.board[m.startRow][m.startCol]
        {
          KnightJumpsSound(sc, row, col, look.pinned, 0, m);
        }
      case Bishop => SliderMovesFromBoard(sc, row, col, BishopDirections, look.pinned, look.dir);
      case Queen => SliderMovesFromBoard(sc, row, col, QueenDirections, look.pinned, look.dir);
      case King =>
        forall m | m in KingSteps(sc, row, col, 0)
          ensures m.InBoard() && m.pieceMoved == sc.board[m.startRow][m.startCol]
        {
          KingStepsSound(sc, row, col, 0, m);
        }
    }
  }

  lemma {:induction false} RowFromBoard(sc: Scene, pins: seq<Line>, row: int, col: nat)
    requires WellPlaced(sc) && 0 <= row < 8 && col <= 8
    ensures FromBoard(RowFrom(sc, pins, row, col).0, sc.board)
    decreases 8 - col
  {
    if col < 8 {
      PieceMovesFromBoard(sc, pins, row, col);
      RowFromBoard(sc, PieceMoves(sc, pins, row, col).1, row, col + 1);
    }
  }

  lemma {:induction false} PossibleFromBoard(sc: Scene, pins: seq<Line>, row: nat)
    requires WellPlaced(sc) && row <= 8
    ensures FromBoard(PossibleFrom(sc, pins, row).0, sc.board)
    decreases 8 - row
  {
    if row < 8 {
      RowFromBoard(sc, pins, row, 0);
      PossibleFromBoard(sc, RowFrom(sc, pins, row, 0).1, row + 1);
    }
  }

  /** GetAllPossibleMoves: every move starts on a square of the board and
      carries the piece standing there. */
  lemma AllPossibleFromBoard(sc: Scene, pins: seq<Line>)
    requires WellPlaced(sc)
    ensures FromBoard(AllPossibleMoves(sc, pins).0, sc.board)
  {
    PossibleFromBoard(sc, pins, 0);
  }

  // ---------------------------------------------------------------------
  // The backward list.remove loops

  /** The moves `keep` accepts, in their order. */
  function Filter(ms: seq<Move>, keep: Move -> bool): (r: seq<Move>)
    ensures |r| <= |ms|
    ensures forall m :: m in r ==> m in ms && keep(m)
  {
    if ms == [] then []
    else (if keep(ms[0]) then [ms[0]] else []) + Filter(ms[1..], keep)
  }

  /** A move survives the filter exactly when it is one of the moves and is
      accepted. */
  lemma {:induction false} FilterMembers(ms: seq<Move>, keep: Move -> bool, m: Move)
    ensures m in Filter(ms, keep) <==> m in ms && keep(m)
  {
    if ms != [] {
      FilterMembers(ms[1..], keep, m);
      assert ms == [ms[0]] + ms[1..];
    }
  }

  /** A list every move of which is accepted passes the filter unchanged. */
  lemma {:induction false} FilterAll(ms: seq<Move>, keep: Move -> bool)
    requires forall m :: m in ms ==> keep(m)
    ensures Filter(ms, keep) == ms
  {
    if ms != [] {
      assert ms[0] in ms;
      FilterAll(ms[1..], keep);
      assert ms == [ms[0]] + ms[1..];
    }
  }

  /** Moves the engine's __eq__ cannot tell apart are accepted alike. */
  predicate Agrees(ms: seq<Move>, keep: Move -> bool) {
    forall a, b :: a in ms && b in ms && Equals(a, b) ==> keep(a) == keep(b)
  }

  /** Removing the first entry equal to a rejected move, when every entry
      equal to it is rejected too, leaves the filtered list as it was. */
  lemma {:induction false} RemoveRejected(s: seq<Move>, x: Move, keep: Move -> bool)
    requires x in s && !keep(x)
    requires forall m :: m in s && Equals(m, x) ==> !keep(m)
    ensures Filter(RemoveFirstEqual(s, x), keep) == Filter(s, keep)
    decreases |s|
  {
    if !Equals(s[0], x) {
      assert s[0] != x;
      assert x in s[1..] by { assert s == [s[0]] + s[1..]; }
      RemoveRejected(s[1..], x, keep);
      var r := RemoveFirstEqual(s[1..], x);
      assert ([s[0]] + r)[0] == s[0] && ([s[0]] + r)[1..] == r;
    }
  }

  /** Removing the first entry equal to x, where x equals the entry at i,
      shifts the entries after i down by one. */
  lemma {:induction false} RemoveFirstEqualSuffix(s: seq<Move>, x: Move, i: nat)
    requires i < |s| && Equals(s[i], x)
    ensures |RemoveFirstEqual(s, x)| == |s| - 1 && RemoveFirstEqual(s, x)[i..] == s[i + 1..]
    decreases |s|
  {
    if !Equals(s[0], x) {
      assert s[1..][i - 1] == s[i];
      RemoveFirstEqualSuffix(s[1..], x, i - 1);
    }
  }

  /** One removal of the backward loops: the entry at i is rejected and
      every entry after it accepted. Removing the first entry equal to it
      keeps the filtered list, draws only on the original moves, and
      leaves accepted entries from i on. */
  lemma RemoveRejectedAt(ms: seq<Move>, cur: seq<Move>, keep: Move -> bool, i: nat)
    requires i < |cur| && !keep(cur[i])
    requires forall m :: m in cur ==> m in ms
    requires Agrees(ms, keep)
    requires forall k :: i < k < |cur| ==> keep(cur[k])
    ensures var next := RemoveFirstEqual(cur, cur[i]);
            && Filter(next, keep) == Filter(cur, keep)
            && (forall m :: m in next ==> m in ms)
            && (forall k :: i <= k < |next| ==> keep(next[k]))
  {
    var x := cur[i];
    var next := RemoveFirstEqual(cur, x);
    assert Equals(cur[i], x);
    RemoveFirstEqualSuffix(cur, x, i);
    RemoveRejected(cur, x, keep);
    forall k | i <= k < |next| ensures keep(next[k]) {
      assert next[k] == next[i..][k - i] == cur[k + 1];
    }
  }

  /** A loop over the indices i - 1 down to 0 of a list that removes, with
      list.remove, every entry `keep` rejects (the loop of the draft's
      GetValidMoves). */
  function BackwardRemove(cur: seq<Move>, keep: Move -> bool, i: nat): seq<Move>
    requires i <= |cur|
    decreases i
  {
    if i == 0 then cur
    else
      var x := cur[i - 1];
      assert Equals(cur[i - 1], x);
      BackwardRemove(if keep(x) then cur else RemoveFirstEqual(cur, x), keep, i - 1)
  }

  /** The backward loop from index i - 1 down: when the entries from i on
      are all accepted, and equal moves are accepted alike, the loop ends
      with the filtered list. */
  lemma {:induction false} BackwardRemoveFrom(ms: seq<Move>, cur: seq<Move>, keep: Move -> bool, i: nat)
    requires i <= |cur|
    requires forall m :: m in cur ==> m in ms
    requires Agrees(ms, keep)
    requires forall k :: i <= k < |cur| ==> keep(cur[k])
    ensures BackwardRemove(cur, keep, i) == Filter(cur, keep)
    decreases i
  {
    if i == 0 {
      FilterAll(cur, keep);
    } else if keep(cur[i - 1]) {
      BackwardRemoveFrom(ms, cur, keep, i - 1);
    } else {
      RemoveRejectedAt(ms, cur, keep, i - 1);
      BackwardRemoveFrom(ms, RemoveFirstEqual(cur, cur[i - 1]), keep, i - 1);
    }
  }

  /** The backward loop over a whole list whose equal moves are accepted
      alike keeps, in their order, exactly the accepted moves. */
  lemma BackwardRemoveFilters(ms: seq<Move>, keep: Move -> bool)
    requires Agrees(ms, keep)
    ensures BackwardRemove(ms, keep, |ms|) == Filter(ms, keep)
  {
    BackwardRemoveFrom(ms, ms, keep, |ms|);
  }

  /** What the single-check filter of GetValidMoves keeps. */
  function Answers(squares: seq<Square>): Move -> bool {
    m => Keeps(m, squares)
  }

  /** The removal loop from index i down: when every entry past i is kept,
      and equal moves are kept alike, the loop ends with the filtered list. */
  lemma {:induction false} RemoveUnblockingFrom(ms: seq<Move>, cur: seq<Move>, squares: seq<Square>, i: int)
    requires -1 <= i < |cur|
    requires forall m :: m in cur ==> m in ms
    requires Agrees(ms, Answers(squares))
    requires forall k :: i < k < |cur| ==> Keeps(cur[k], squares)
    ensures RemoveUnblocking(cur, squares, i) == Filter(cur, Answers(squares))
    decreases i + 1
  {
    if i < 0 {
      FilterAll(cur, Answers(squares));
    } else if Keeps(cur[i], squares) {
      RemoveUnblockingFrom(ms, cur, squares, i - 1);
    } else {
      RemoveRejectedAt(ms, cur, Answers(squares), i);
      RemoveUnblockingFrom(ms, RemoveFirstEqual(cur, cur[i]), squares, i - 1);
    }
  }

  /** Moves read off one board agree on being kept: equal moves share
      their squares, and so the piece moved. */
  lemma AnswersAgree(ms: seq<Move>, b: Grid, squares: seq<Square>)
    requires FromBoard(ms, b)
    ensures Agrees(ms, Answers(squares))
  {
  }

  /** GetValidMoves under a single check keeps, in their order, exactly the
      king moves and the moves that end on a square answering the check. */
  lemma SingleCheckFilters(sc: Scene, pins: seq<Line>, check: Line)
    requires WellPlaced(sc) && OnBoard(check.row, check.col)
    ensures var (kr, kc) := sc.AllyKing();
            SingleCheckMoves(sc, pins, check).0
            == Filter(AllPossibleMoves(sc, pins).0, Answers(CheckSquares(sc.board, kr, kc, check)))
  {
    var (kr, kc) := sc.AllyKing();
    var all := AllPossibleMoves(sc, pins).0;
    var squares := CheckSquares(sc.board, kr, kc, check);
    AllPossibleFromBoard(sc, pins);
    AnswersAgree(all, sc.board, squares);
    RemoveUnblockingFrom(all, all, squares, |all| - 1);
  }

  // ---------------------------------------------------------------------
  // The squares that answer a check

  /** Every square of BlockSquares lies on the ray, from distance i on. */
  lemma {:induction false} BlockSquaresOnRay(kr: int, kc: int, check: Line, i: nat, sq: Square)
    requires 1 <= i <= 8 && sq in BlockSquares(kr, kc, check, i)
    ensures exists j :: i <= j < 8 && sq == RayPoint(kr, kc, (check.dRow, check.dCol), j)
    decreases 8 - i
  {
    if sq != RayPoint(kr, kc, (check.dRow, check.dCol), i) {
      BlockSquaresOnRay(kr, kc, check, i + 1, sq);
    }
  }

  /** When the checker stands j steps along the ray, BlockSquares ends on
      the checker's square. */
  lemma {:induction false} BlockSquaresReachChecker(kr: int, kc: int, check: Line, i: nat, j: nat)
    requires 1 <= i <= j < 8 && RayPoint(kr, kc, (check.dRow, check.dCol), j) == (check.row, check.col)
    ensures var sqs := BlockSquares(kr, kc, check, i); |sqs| > 0 && sqs[|sqs| - 1] == (check.row, check.col)
    decreases j - i
  {
    if RayPoint(kr, kc, (check.dRow, check.dCol), i) != (check.row, check.col) {
      BlockSquaresReachChecker(kr, kc, check, i + 1, j);
    }
  }

  /** For every check the scan records, the squares answering it lie on the
      line from the king and end with the checker's own square. */
  lemma CheckSquaresEndAtChecker(b: Grid, whiteToMove: bool, kr: int, kc: int, check: Line)
    requires check in PinsAndChecksAt(b, whiteToMove, kr, kc).checks
    ensures OnBoard(check.row, check.col)
    ensures var sqs := CheckSquares(b, kr, kc, check); |sqs| > 0 && sqs[|sqs| - 1] == (check.row, check.col)
  {
    PinsAndChecksSound(b, whiteToMove, kr, kc);
    assert CheckLine(b, Mover(whiteToMove), kr, kc, check);
    if PieceLetter(b[check.row][check.col]) != 'N' {
      assert b[check.row][check.col].kind != Knight;
      var j :| 1 <= j < 8 && (check.row, check.col) == RayPoint(kr, kc, (check.dRow, check.dCol), j);
      BlockSquaresReachChecker(kr, kc, check, 1, j);
    }
  }

  // ---------------------------------------------------------------------
  // GetValidMoves

  /** GetValidMoves: the in-check flag is the scan's; in double check only
      the king moves; with a move left both end flags are cleared; with no
      move left SquareUnderAttack on the king decides: Checkmate is raised
      when some opponent move ends on the king's square, Stalemate
      otherwise, and the other flag keeps its value. */
  lemma ValidMovesVerdict(sc: Scene, rights: CastleRights, checkmate: bool, stalemate: bool)
    requires WellPlaced(sc) && CastleRoom(sc, rights)
    ensures var v := ValidMoves(sc, rights, checkmate, stalemate);
            && v.inCheck == Attacked(sc.board, sc.whiteToMove, sc.AllyKing().0, sc.AllyKing().1)
            && v.inCheck == Threatened(sc.board, sc.whiteToMove, sc.AllyKing().0, sc.AllyKing().1)
            && (v.inCheck && |v.checks| != 1 ==> v.moves == KingMoves(sc, sc.AllyKing().0, sc.AllyKing().1))
            && (v.moves != [] ==> !v.checkmate && !v.stalemate)
            && (v.moves == [] ==> (v.checkmate && v.stalemate == stalemate) || (v.stalemate && v.checkmate == checkmate))
    ensures var (kr, kc) := sc.AllyKing();
            var attacked := EndsOn(AllPossibleMoves(sc.Flipped(), CandidatePins(sc, rights)).0, kr, kc);
            var v := ValidMoves(sc, rights, checkmate, stalemate);
            v.moves == [] ==> v.checkmate == (attacked || checkmate) && v.stalemate == (!attacked || stalemate)
  {
    var (kr, kc) := sc.AllyKing();
    InCheckFlag(sc.board, sc.whiteToMove, kr, kc);
  }

  /** GetValidMoves under a single check keeps exactly the king moves and
      the moves ending on a square between the king and the checker, the
      checker's included. */
  lemma ValidMovesSingleCheck(sc: Scene, rights: CastleRights, checkmate: bool, stalemate: bool, m: Move)
    requires WellPlaced(sc) && CastleRoom(sc, rights)
    requires var v := ValidMoves(sc, rights, checkmate, stalemate); v.inCheck && |v.checks| == 1
    ensures var v := ValidMoves(sc, rights, checkmate, stalemate);
            var found := PinsAndChecksAt(sc.board, sc.whiteToMove, sc.AllyKing().0, sc.AllyKing().1);
            OnBoard(v.checks[0].row, v.checks[0].col)
            && (m in v.moves <==> m in AllPossibleMoves(sc, found.pins).0
                                  && Keeps(m, CheckSquares(sc.board, sc.AllyKing().0, sc.AllyKing().1, v.checks[0])))
  {
    var (kr, kc) := sc.AllyKing();
    var found := PinsAndChecksAt(sc.board, sc.whiteToMove, kr, kc);
    var check := found.checks[0];
    CheckSquaresEndAtChecker(sc.board, sc.whiteToMove, kr, kc, check);
    SingleCheckFilters(sc, found.pins, check);
    FilterMembers(AllPossibleMoves(sc, found.pins).0, Answers(CheckSquares(sc.board, kr, kc, check)), m);
  }
}
