/** The earlier draft of the game state (piece_images/Algo_1.py): moves are
    made and undone by writing the two squares back, and the valid moves
    are found by brute force, making each possible move and asking whether
    the mover's king is then attacked.

    GetAllPossibleMoves is not part of the draft; the draft takes the move
    generator as a parameter, a function of the grid and the side to move.
 */
module Draft {
  import opened Pieces
  import opened Moves
  import opened Generation
  import opened GenerationFacts
  import Bookkeeping
  import Engine

  /** The fields MakeMove and UndoMove touch. */
  datatype Position = Position(board: Grid, whiteToMove: bool, moveLog: seq<Move>, whiteKing: Square, blackKing: Square)

  /** Every logged move names squares on the board. */
  predicate LogInBoard(s: Position) {
    forall k :: 0 <= k < |s.moveLog| ==> s.moveLog[k].InBoard()
  }

  /** MakeMove: empty the start square, put the moving piece on the end
      square, log the move, follow a moving king, pass the turn. */
  function Made(s: Position, m: Move): (r: Position)
    requires m.InBoard()
    ensures r.moveLog == s.moveLog + [m] && r.whiteToMove == !s.whiteToMove
    ensures r.board[m.endRow][m.endCol] == m.pieceMoved
  {
    var b := Put(Put(s.board, m.startRow, m.startCol, Empty), m.endRow, m.endCol, m.pieceMoved);
    Position(b, !s.whiteToMove, s.moveLog + [m],
             if m.pieceMoved == Occupied(White, King) then (m.endRow, m.endCol) else s.whiteKing,
             if m.pieceMoved == Occupied(Black, King) then (m.endRow, m.endCol) else s.blackKing)
  }

  /** UndoMove: put the moved and the captured piece back on the two
      squares of the last move, move a king back to its start square, pass
      the turn back; nothing at all when no move has been made. */
  function Undone(s: Position): (r: Position)
    requires s.moveLog != [] ==> s.moveLog[|s.moveLog| - 1].InBoard()
    ensures s.moveLog == [] ==> r == s
    ensures s.moveLog != [] ==> r.moveLog == s.moveLog[..|s.moveLog| - 1] && r.whiteToMove == !s.whiteToMove
  {
    if s.moveLog == [] then s
    else
      var m := s.moveLog[|s.moveLog| - 1];
      var b := Put(Put(s.board, m.startRow, m.startCol, m.pieceMoved), m.endRow, m.endCol, m.pieceCaptured);
      Position(b, !s.whiteToMove, s.moveLog[..|s.moveLog| - 1],
               if m.pieceMoved == Occupied(White, King) then (m.startRow, m.startCol) else s.whiteKing,
               if m.pieceMoved == Occupied(Black, King) then (m.startRow, m.startCol) else s.blackKing)
  }

  /** Whatever the position, MakeMove then UndoMove leaves the moved piece
      on the start square and the captured piece on the end square, every
      other square, the turn and the log as they were, and each king where
      it was or, for the king that moved, on the start square. */
  lemma MakeUndoRestores(s: Position, m: Move)
    requires m.InBoard()
    ensures var r := Undone(Made(s, m));
            && r.board[m.startRow][m.startCol] == (if (m.startRow, m.startCol) == (m.endRow, m.endCol) then m.pieceCaptured else m.pieceMoved)
            && r.board[m.endRow][m.endCol] == m.pieceCaptured
            && (forall row, col :: OnBoard(row, col) && (row, col) != (m.startRow, m.startCol) && (row, col) != (m.endRow, m.endCol)
                  ==> r.board[row][col] == s.board[row][col])
            && r.whiteToMove == s.whiteToMove && r.moveLog == s.moveLog
            && r.whiteKing == (if m.pieceMoved == Occupied(White, King) then (m.startRow, m.startCol) else s.whiteKing)
            && r.blackKing == (if m.pieceMoved == Occupied(Black, King) then (m.startRow, m.startCol) else s.blackKing)
  {
    var made := Made(s, m);
    assert made.moveLog[|made.moveLog| - 1] == m;
    assert made.moveLog[..|made.moveLog| - 1] == s.moveLog;
  }

  /** A move fits a position when the board and the king locations are as
      the move says: the moving piece on its start square, the captured one
      on its end square, two distinct squares, and a moving king recorded
      where it stands. */
  predicate Fits(s: Position, m: Move) {
    && m.InBoard()
    && s.board[m.startRow][m.startCol] == m.pieceMoved
    && s.board[m.endRow][m.endCol] == m.pieceCaptured
    && (m.startRow, m.startCol) != (m.endRow, m.endCol)
    && (m.pieceMoved == Occupied(White, King) ==> s.whiteKing == (m.startRow, m.startCol))
    && (m.pieceMoved == Occupied(Black, King) ==> s.blackKing == (m.startRow, m.startCol))
  }

  /** For a move that fits, UndoMove takes back MakeMove exactly. */
  lemma MakeUndoRoundTrip(s: Position, m: Move)
    requires Fits(s, m)
    ensures Undone(Made(s, m)) == s
  {
    MakeUndoRestores(s, m);
    Bookkeeping.SameGrid(Undone(Made(s, m)).board, s.board);
  }

  // ---------------------------------------------------------------------
  // Attacks and the brute-force filter

  /** SquareUnderAttack: some move the generator gives the other side ends
      on (row, col). */
  predicate UnderAttackBy(gen: (Grid, bool) -> seq<Move>, b: Grid, whiteToMove: bool, row: int, col: int) {
    EndsOn(gen(b, !whiteToMove), row, col)
  }

  function KingOf(s: Position): Square {
    if s.whiteToMove then s.whiteKing else s.blackKing
  }

  /** inCheck: the king of the side to move is attacked. */
  predicate InCheckAt(gen: (Grid, bool) -> seq<Move>, s: Position) {
    UnderAttackBy(gen, s.board, s.whiteToMove, KingOf(s).0, KingOf(s).1)
  }

  /** After the move, with the turn handed back to the mover, the mover's
      king is attacked. */
  predicate Exposes(gen: (Grid, bool) -> seq<Move>, s: Position, m: Move)
    requires m.InBoard()
  {
    InCheckAt(gen, Made(s, m).(whiteToMove := s.whiteToMove))
  }

  /** What the loop keeps: a move after which the mover's king is not
      attacked. */
  function Harmless(gen: (Grid, bool) -> seq<Move>, s: Position): Move -> bool {
    (m: Move) => m.InBoard() && !Exposes(gen, s, m)
  }

  /** Moves that fit the position and that the engine's __eq__ cannot tell
      apart share their squares and the piece moved, so they lead to the
      same board and king squares: both expose the king or neither does. */
  lemma FittingAgree(gen: (Grid, bool) -> seq<Move>, s: Position, ms: seq<Move>)
    requires forall m :: m in ms ==> Fits(s, m)
    ensures Agrees(ms, Harmless(gen, s))
  {
    forall a, b | a in ms && b in ms && Equals(a, b)
      ensures Harmless(gen, s)(a) == Harmless(gen, s)(b)
    {
      assert Fits(s, a) && Fits(s, b);
      var pa := Made(s, a).(whiteToMove := s.whiteToMove);
      var pb := Made(s, b).(whiteToMove := s.whiteToMove);
      assert pa.board == pb.board && KingOf(pa) == KingOf(pb);
    }
  }

  /** GetValidMoves' loop keeps, in their order, the generated moves that
      do not expose the mover's king. */
  lemma ValidMovesFiltered(gen: (Grid, bool) -> seq<Move>, s: Position)
    requires forall m :: m in gen(s.board, s.whiteToMove) ==> Fits(s, m)
    ensures ValidMovesOf(gen, s) == Filter(gen(s.board, s.whiteToMove), Harmless(gen, s))
  {
    var all := gen(s.board, s.whiteToMove);
    FittingAgree(gen, s, all);
    BackwardRemoveFilters(all, Harmless(gen, s));
  }

  /** A move is valid exactly when it is generated and does not expose the
      mover's king. */
  lemma ValidMovesAreHarmless(gen: (Grid, bool) -> seq<Move>, s: Position, m: Move)
    requires forall m :: m in gen(s.board, s.whiteToMove) ==> Fits(s, m)
    ensures m in ValidMovesOf(gen, s) <==> m in gen(s.board, s.whiteToMove) && m.InBoard() && !Exposes(gen, s, m)
  {
    ValidMovesFiltered(gen, s);
    FilterMembers(gen(s.board, s.whiteToMove), Harmless(gen, s), m);
  }

  /** The moves GetValidMoves' loop leaves in the list it returns. */
  function ValidMovesOf(gen: (Grid, bool) -> seq<Move>, s: Position): seq<Move>
  {
    var all := gen(s.board, s.whiteToMove);
    BackwardRemove(all, Harmless(gen, s), |all|)
  }

  // ---------------------------------------------------------------------
  // The draft game state

  class GameState {
    var board: Grid
    var whiteToMove: bool
    var moveLog: seq<Move>
    var whiteKingLocation: Square
    var blackKingLocation: Square
    var checkmate: bool
    var stalemate: bool
    /** GetAllPossibleMoves, which the draft calls but does not define. */
    const possibleMoves: (Grid, bool) -> seq<Move>

    function State(): Position
      reads this`board, this`whiteToMove, this`moveLog, this`whiteKingLocation, this`blackKingLocation
    {
      Position(board, whiteToMove, moveLog, whiteKingLocation, blackKingLocation)
    }

    constructor(gen: (Grid, bool) -> seq<Move>, b: Grid, whiteKing: Square, blackKing: Square)
      ensures possibleMoves == gen && State() == Position(b, true, [], whiteKing, blackKing)
      ensures !checkmate && !stalemate
    {
      possibleMoves := gen;
      board := b;
      whiteToMove := true;
      moveLog := [];
      whiteKingLocation := whiteKing;
      blackKingLocation := blackKing;
      checkmate := false;
      stalemate := false;
    }

    method MakeMove(move: Move)
      requires move.InBoard()
      modifies this`board, this`whiteToMove, this`moveLog, this`whiteKingLocation, this`blackKingLocation
      ensures State() == Made(old(State()), move)
    {
      board := Put(board, move.startRow, move.startCol, Empty);
      board := Put(board, move.endRow, move.endCol, move.pieceMoved);
      moveLog := moveLog + [move];
      if move.pieceMoved == Occupied(White, King) {
        whiteKingLocation := (move.endRow, move.endCol);
      } else if move.pieceMoved == Occupied(Black, King) {
        blackKingLocation := (move.endRow, move.endCol);
      }
      whiteToMove := !whiteToMove;
    }

    method UndoMove()
      requires moveLog != [] ==> moveLog[|moveLog| - 1].InBoard()
      modifies this`board, this`whiteToMove, this`moveLog, this`whiteKingLocation, this`blackKingLocation
      ensures State() == Undone(old(State()))
    {
      if |moveLog| != 0 {
        var move := moveLog[|moveLog| - 1];
        moveLog := moveLog[..|moveLog| - 1];
        board := Put(board, move.startRow, move.startCol, move.pieceMoved);
        board := Put(board, move.endRow, move.endCol, move.pieceCaptured);
        if move.pieceMoved == Occupied(White, King) {
          whiteKingLocation := (move.startRow, move.startCol);
        } else if move.pieceMoved == Occupied(Black, King) {
          blackKingLocation := (move.startRow, move.startCol);
        }
        whiteToMove := !whiteToMove;
      }
    }

    /** SquareUnderAttack: the turn is handed to the opponent to generate its
        moves and handed back. */
    method SquareUnderAttack(row: int, col: int) returns (attacked: bool)
      modifies this`whiteToMove
      ensures whiteToMove == old(whiteToMove)
      ensures attacked == UnderAttackBy(possibleMoves, board, whiteToMove, row, col)
    {
      whiteToMove := !whiteToMove;
      var opponentMoves := possibleMoves(board, whiteToMove);
      whiteToMove := !whiteToMove;
      attacked := Engine.EndsOnSquare(opponentMoves, row, col);
    }

    method InCheck() returns (check: bool)
      modifies this`whiteToMove
      ensures whiteToMove == old(whiteToMove)
      ensures check == InCheckAt(possibleMoves, State())
    {
      if whiteToMove {
        check := SquareUnderAttack(whiteKingLocation.0, whiteKingLocation.1);
      } else {
        check := SquareUnderAttack(blackKingLocation.0, blackKingLocation.1);
      }
    }

    /** GetValidMoves: every possible move is made, tested and undone, from
        the last to the first, so the position is left as it was; then the
        end flags are set, each only ever to true when no move is left. */
    method GetValidMoves() returns (moves: seq<Move>)
      requires forall m :: m in possibleMoves(board, whiteToMove) ==> Fits(State(), m)
      modifies this`board, this`whiteToMove, this`moveLog, this`whiteKingLocation, this`blackKingLocation,
               this`checkmate, this`stalemate
      ensures State() == old(State())
      ensures moves == Filter(old(possibleMoves(board, whiteToMove)), Harmless(possibleMoves, old(State())))
      ensures moves == [] && InCheckAt(possibleMoves, State()) ==> checkmate && stalemate == old(stalemate)
      ensures moves == [] && !InCheckAt(possibleMoves, State()) ==> stalemate && checkmate == old(checkmate)
      ensures moves != [] ==> !checkmate && !stalemate
    {
      moves := RemoveExposing();
      ValidMovesFiltered(possibleMoves, State());
      var check := InCheck();
      if |moves| == 0 {
        if check {
          checkmate := true;
        } else {
          stalemate := true;
        }
      } else {
        checkmate := false;
        stalemate := false;
      }
    }

    /** GetValidMoves' loop over the possible moves, backwards. */
    method RemoveExposing() returns (moves: seq<Move>)
      requires forall m :: m in possibleMoves(board, whiteToMove) ==> Fits(State(), m)
      modifies this`board, this`whiteToMove, this`moveLog, this`whiteKingLocation, this`blackKingLocation
      ensures State() == old(State())
      ensures moves == ValidMovesOf(possibleMoves, old(State()))
    {
      ghost var s := State();
      moves := possibleMoves(board, whiteToMove);
      ghost var all := moves;
      var i := |moves|;
      while i > 0
        invariant 0 <= i <= |moves|
        invariant forall m :: m in moves ==> m in all
        invariant State() == s
        invariant BackwardRemove(moves, Harmless(possibleMoves, s), i)
                  == BackwardRemove(all, Harmless(possibleMoves, s), |all|)
        decreases i
      {
        var move := moves[i - 1];
        var exposed := TryMove(move);
        if exposed {
          assert Equals(moves[i - 1], move);
          moves := RemoveFirstEqual(moves, move);
        }
        i := i - 1;
      }
    }

    /** One trial of GetValidMoves: make the move, hand the turn back to the
        mover to ask whether its king is attacked, undo the move. */
    method TryMove(move: Move) returns (exposed: bool)
      requires Fits(State(), move)
      modifies this`board, this`whiteToMove, this`moveLog, this`whiteKingLocation, this`blackKingLocation
      ensures State() == old(State())
      ensures exposed == Exposes(possibleMoves, old(State()), move)
    {
      ghost var s := State();
      MakeMove(move);
      whiteToMove := !whiteToMove;
      exposed := InCheck();
      whiteToMove := !whiteToMove;
      MakeUndoRoundTrip(s, move);
      UndoMove();
    }
  }
}
