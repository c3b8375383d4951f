/** GameState: the board, the side to move, the undo logs and the move
    generators, updating its fields in place. Every method is proved to
    compute what the functions of modules Bookkeeping and Generation say.
 */
module Engine {
  import opened Pieces
  import opened Moves
  import opened Generation
  import opened Bookkeeping

  class GameState {
    var board: Grid
    var whiteToMove: bool
    var whitePieces: int
    var blackPieces: int
    var moveLog: seq<Move>
    var whiteKingLocation: Square
    var blackKingLocation: Square
    var checkmate: bool
    var stalemate: bool
    var inCheckFlag: bool
    var pins: seq<Line>
    var checks: seq<Line>
    var enPassantPossible: Option<Square>
    var enPassantPossibleLog: seq<Option<Square>>
    var currentCastlingRights: CastleRights
    var castleRightsLog: seq<CastleRights>

    /** The fields MakeMove and UndoMove work on. */
    function State(): Record
      reads this`board, this`whiteToMove, this`whitePieces, this`blackPieces, this`moveLog,
            this`whiteKingLocation, this`blackKingLocation, this`checkmate, this`stalemate,
            this`enPassantPossible, this`enPassantPossibleLog, this`currentCastlingRights, this`castleRightsLog
    {
      Record(board, whiteToMove, whitePieces, blackPieces, moveLog, whiteKingLocation, blackKingLocation,
             checkmate, stalemate, enPassantPossible, enPassantPossibleLog, currentCastlingRights, castleRightsLog)
    }

    /** The fields the move generators read, besides the pins. */
    function CurrentScene(): Scene
      reads this`board, this`whiteToMove, this`whiteKingLocation, this`blackKingLocation, this`enPassantPossible
    {
      Scene(board, whiteToMove, whiteKingLocation, blackKingLocation, enPassantPossible)
    }

    constructor()
      ensures State() == Initial() && Valid(State())
      ensures pins == [] && checks == [] && !inCheckFlag
    {
      board := InitialBoard();
      whiteToMove := true;
      whitePieces := 16;
      blackPieces := 16;
      moveLog := [];
      whiteKingLocation := (7, 4);
      blackKingLocation := (0, 4);
      checkmate := false;
      stalemate := false;
      inCheckFlag := false;
      pins := [];
      checks := [];
      enPassantPossible := None;
      enPassantPossibleLog := [enPassantPossible];
      currentCastlingRights := CastleRights(true, true, true, true);
      castleRightsLog := [currentCastlingRights];
    }

    /** True when each side is down to a single piece, by the counters
        MakeMove and UndoMove keep. */
    predicate OnlyKingsPresent()
      reads this`board, this`whiteToMove, this`whitePieces, this`blackPieces, this`moveLog,
            this`whiteKingLocation, this`blackKingLocation, this`checkmate, this`stalemate,
            this`enPassantPossible, this`enPassantPossibleLog, this`currentCastlingRights, this`castleRightsLog
    {
      Bookkeeping.OnlyKingsPresent(State())
    }

    // -------------------------------------------------------------------
    // Making and unmaking moves

    method MakeMove(move: Move)
      requires Makeable(move)
      modifies this`board, this`moveLog, this`whitePieces, this`blackPieces, this`whiteToMove,
               this`whiteKingLocation, this`blackKingLocation, this`enPassantPossible,
               this`enPassantPossibleLog, this`currentCastlingRights, this`castleRightsLog
      ensures State() == Make(old(State()), move)
    {
      ghost var before := State();
      MovePieces(move);
      RecordMove(move);
      RecordRights(move);
      MadeRecord(before, move, State());
    }

    /** The board writes of MakeMove: the start square is emptied, the end
        square gets the moving piece (the promotion piece for a pawn reaching
        its last row), an en-passant capture empties the square beside the
        start square, and a castle hops the rook. The engine interleaves
        these writes with the updates of the other fields, which neither
        read nor write the board. */
    method MovePieces(move: Move)
      requires Makeable(move)
      modifies this`board
      ensures board == MakeBoard(old(board), move)
    {
      ghost var before := board;
      board := Put(board, move.startRow, move.startCol, Empty);
      board := Put(board, move.endRow, move.endCol, move.pieceMoved);
      if move.PawnPromotion() {
        board := Put(board, move.endRow, move.endCol, Occupied(move.pieceMoved.color, move.promotedTo.value));
      } else {
        board := Put(board, move.endRow, move.endCol, move.pieceMoved);
      }
      PutTwice(Put(before, move.startRow, move.startCol, Empty), move.endRow, move.endCol, move.pieceMoved, Arriving(move));
      if move.enPassant {
        board := Put(board, move.startRow, move.endCol, Empty);
      }
      if move.isCastleMove {
        MoveCastleRook(move);
      }
    }

    /** The move goes on the log, a captured piece comes off its side's
        count, the turn passes, and a moving king has its location updated. */
    method RecordMove(move: Move)
      modifies this`moveLog, this`whitePieces, this`blackPieces, this`whiteToMove,
               this`whiteKingLocation, this`blackKingLocation
      ensures moveLog == old(moveLog) + [move]
      ensures whitePieces == if HasColor(move.pieceCaptured, White) then old(whitePieces) - 1 else old(whitePieces)
      ensures blackPieces == if HasColor(move.pieceCaptured, Black) then old(blackPieces) - 1 else old(blackPieces)
      ensures whiteToMove == !old(whiteToMove)
      ensures whiteKingLocation == if move.pieceMoved == Occupied(White, King) then (move.endRow, move.endCol) else old(whiteKingLocation)
      ensures blackKingLocation == if move.pieceMoved == Occupied(Black, King) then (move.endRow, move.endCol) else old(blackKingLocation)
    {
      moveLog := moveLog + [move];
      if move.pieceCaptured != Empty {
        if move.pieceCaptured.color == White {
          whitePieces := whitePieces - 1;
        } else {
          blackPieces := blackPieces - 1;
        }
      }
      whiteToMove := !whiteToMove;
      if move.pieceMoved == Occupied(White, King) {
        whiteKingLocation := (move.endRow, move.endCol);
      } else if move.pieceMoved == Occupied(Black, King) {
        blackKingLocation := (move.endRow, move.endCol);
      }
    }

    /** The en-passant target the move leaves (the square a two-row pawn
        advance skipped, or none) and the castling rights it leaves, each
        pushed on its log. */
    method RecordRights(move: Move)
      modifies this`enPassantPossible, this`enPassantPossibleLog, this`currentCastlingRights, this`castleRightsLog
      ensures enPassantPossible == EnPassantAfter(move)
      ensures enPassantPossibleLog == old(enPassantPossibleLog) + [enPassantPossible]
      ensures currentCastlingRights == RevokedRights(old(currentCastlingRights), move)
      ensures castleRightsLog == old(castleRightsLog) + [currentCastlingRights]
    {
      if PieceLetter(move.pieceMoved) == 'P' && (move.startRow - move.endRow == 2 || move.endRow - move.startRow == 2) {
        enPassantPossible := Some(((move.startRow + move.endRow) / 2, move.endCol));
      } else {
        enPassantPossible := None;
      }
      enPassantPossibleLog := enPassantPossibleLog + [enPassantPossible];
      UpdateCastleRights(move);
      castleRightsLog := castleRightsLog + [currentCastlingRights];
    }

    method UndoMove()
      requires Valid(State())
      modifies this`board, this`moveLog, this`whitePieces, this`blackPieces, this`whiteToMove,
               this`whiteKingLocation, this`blackKingLocation, this`enPassantPossible,
               this`enPassantPossibleLog, this`currentCastlingRights, this`castleRightsLog,
               this`checkmate, this`stalemate
      ensures State() == Undo(old(State()))
    {
      if |moveLog| != 0 {
        UndoLast();
      }
    }

    /** UndoMove on a non-empty log: the last move comes off the log and
        everything MakeMove did for it is put back. */
    method UndoLast()
      requires Valid(State()) && |moveLog| != 0
      modifies this`board, this`moveLog, this`whitePieces, this`blackPieces, this`whiteToMove,
               this`whiteKingLocation, this`blackKingLocation, this`enPassantPossible,
               this`enPassantPossibleLog, this`currentCastlingRights, this`castleRightsLog,
               this`checkmate, this`stalemate
      ensures State() == Undo(old(State()))
    {
      var move := moveLog[|moveLog| - 1];
      assert move in moveLog;
      RestorePieces(move);
      UnrecordMove(move);
      RestoreRights(move);
    }

    /** The board writes of UndoMove: both squares get their recorded pieces
        back, an en-passant capture returns the pawn beside the end square,
        and a castle hops the rook back. */
    method RestorePieces(move: Move)
      requires Makeable(move)
      modifies this`board
      ensures board == UndoBoard(old(board), move)
    {
      board := Put(board, move.startRow, move.startCol, move.pieceMoved);
      board := Put(board, move.endRow, move.endCol, move.pieceCaptured);
      if move.enPassant {
        board := Put(board, move.endRow, move.endCol, Empty);
        board := Put(board, move.startRow, move.endCol, move.pieceCaptured);
      }
      if move.isCastleMove {
        ReturnCastleRook(move);
      }
    }

    /** The last move comes off the log, a captured piece goes back on its
        side's count, the turn passes back, and a king that moved returns to
        its start square. */
    method UnrecordMove(move: Move)
      requires |moveLog| != 0
      modifies this`moveLog, this`whitePieces, this`blackPieces, this`whiteToMove,
               this`whiteKingLocation, this`blackKingLocation
      ensures moveLog == old(moveLog[..|moveLog| - 1])
      ensures whitePieces == if HasColor(move.pieceCaptured, White) then old(whitePieces) + 1 else old(whitePieces)
      ensures blackPieces == if HasColor(move.pieceCaptured, Black) then old(blackPieces) + 1 else old(blackPieces)
      ensures whiteToMove == !old(whiteToMove)
      ensures whiteKingLocation == if move.pieceMoved == Occupied(White, King) then (move.startRow, move.startCol) else old(whiteKingLocation)
      ensures blackKingLocation == if move.pieceMoved == Occupied(Black, King) then (move.startRow, move.startCol) else old(blackKingLocation)
    {
      moveLog := moveLog[..|moveLog| - 1];
      if move.pieceCaptured != Empty {
        if move.pieceCaptured.color == White {
          whitePieces := whitePieces + 1;
        } else {
          blackPieces := blackPieces + 1;
        }
      }
      whiteToMove := !whiteToMove;
      if move.pieceMoved == Occupied(White, King) {
        whiteKingLocation := (move.startRow, move.startCol);
      } else if move.pieceMoved == Occupied(Black, King) {
        blackKingLocation := (move.startRow, move.startCol);
      }
    }

    /** Both rights logs drop their top entry and the entries below come back
        into force, except that the en-passant target is cleared after
        undoing a two-row pawn advance; both game-end flags are cleared. */
    method RestoreRights(move: Move)
      requires |enPassantPossibleLog| >= 2 && |castleRightsLog| >= 2
      modifies this`enPassantPossible, this`enPassantPossibleLog, this`currentCastlingRights, this`castleRightsLog,
               this`checkmate, this`stalemate
      ensures enPassantPossibleLog == old(enPassantPossibleLog[..|enPassantPossibleLog| - 1])
      ensures enPassantPossible == if DoublePawnPush(move) then None else enPassantPossibleLog[|enPassantPossibleLog| - 1]
      ensures castleRightsLog == old(castleRightsLog[..|castleRightsLog| - 1])
      ensures currentCastlingRights == castleRightsLog[|castleRightsLog| - 1]
      ensures !checkmate && !stalemate
    {
      enPassantPossibleLog := enPassantPossibleLog[..|enPassantPossibleLog| - 1];
      enPassantPossible := enPassantPossibleLog[|enPassantPossibleLog| - 1];
      if PieceLetter(move.pieceMoved) == 'P' && (move.startRow - move.endRow == 2 || move.endRow - move.startRow == 2) {
        enPassantPossible := None;
      }
      castleRightsLog := castleRightsLog[..|castleRightsLog| - 1];
      currentCastlingRights := castleRightsLog[|castleRightsLog| - 1];
      checkmate := false;
      stalemate := false;
    }

    /** The rook hop of MakeMove's castle branch. */
    method MoveCastleRook(move: Move)
      requires Makeable(move) && move.isCastleMove
      modifies this`board
      ensures board == RookHop(old(board), move)
    {
      if move.endCol - move.startCol == 2 {
        board := Put(board, move.endRow, move.endCol - 1, board[move.endRow][move.endCol + 1]);
        board := Put(board, move.endRow, move.endCol + 1, Empty);
      } else {
        board := Put(board, move.endRow, move.endCol + 1, board[move.endRow][move.endCol - 2]);
        board := Put(board, move.endRow, move.endCol - 2, Empty);
      }
    }

    /** The rook hop of UndoMove's castle branch. */
    method ReturnCastleRook(move: Move)
      requires Makeable(move) && move.isCastleMove
      modifies this`board
      ensures board == RookHopBack(old(board), move)
    {
      if move.endCol - move.startCol == 2 {
        board := Put(board, move.endRow, move.endCol + 1, board[move.endRow][move.endCol - 1]);
        board := Put(board, move.endRow, move.endCol - 1, Empty);
      } else {
        board := Put(board, move.endRow, move.endCol - 2, board[move.endRow][move.endCol + 1]);
        board := Put(board, move.endRow, move.endCol + 1, Empty);
      }
    }

    method UpdateCastleRights(move: Move)
      modifies this`currentCastlingRights
      ensures currentCastlingRights == RevokedRights(old(currentCastlingRights), move)
    {
      if move.pieceMoved == Occupied(White, King) {
        currentCastlingRights := currentCastlingRights.(whiteKSide := false);
        currentCastlingRights := currentCastlingRights.(whiteQSide := false);
      } else if move.pieceMoved == Occupied(Black, King) {
        currentCastlingRights := currentCastlingRights.(blackKSide := false);
        currentCastlingRights := currentCastlingRights.(blackQSide := false);
      }

      if move.pieceMoved == Occupied(White, Rook) {
        if move.startRow == 7 {
          if move.startCol == 0 {
            currentCastlingRights := currentCastlingRights.(whiteQSide := false);
          } else if move.startCol == 7 {
            currentCastlingRights := currentCastlingRights.(whiteKSide := false);
          }
        }
      }

      if move.pieceMoved == Occupied(Black, Rook) {
        if move.startRow == 0 {
          if move.startCol == 0 {
            currentCastlingRights := currentCastlingRights.(blackQSide := false);
          } else if move.startCol == 7 {
            currentCastlingRights := currentCastlingRights.(blackKSide := false);
          }
        }
      }

      if move.pieceCaptured == Occupied(White, Rook) {
        if move.endCol == 0 {
          currentCastlingRights := currentCastlingRights.(whiteQSide := false);
        } else if move.endCol == 7 {
          currentCastlingRights := currentCastlingRights.(whiteKSide := false);
        }
      } else if move.pieceCaptured == Occupied(Black, Rook) {
        if move.endCol == 0 {
          currentCastlingRights := currentCastlingRights.(blackQSide := false);
        } else if move.endCol == 7 {
          currentCastlingRights := currentCastlingRights.(blackKSide := false);
        }
      }
    }

    // -------------------------------------------------------------------
    // Pins and checks

    /** The rays from the mover's king and the eight knight squares around it. */
    method CheckForPinsAndChecks() returns (inCheck: bool, foundPins: seq<Line>, foundChecks: seq<Line>)
      ensures var (kr, kc) := CurrentScene().AllyKing();
              PinsAndChecks(inCheck, foundPins, foundChecks) == PinsAndChecksAt(board, whiteToMove, kr, kc)
    {
      var ally := if whiteToMove then White else Black;
      var startRow, startCol := if whiteToMove then whiteKingLocation.0 else blackKingLocation.0,
                                if whiteToMove then whiteKingLocation.1 else blackKingLocation.1;
      inCheck, foundPins, foundChecks := ScanDirectionsFrom(ally, startRow, startCol);
      inCheck, foundChecks := ScanKnightsFrom(ally, startRow, startCol, inCheck, foundPins, foundChecks);
    }

    /** The loop of CheckForPinsAndChecks over the eight directions. */
    method ScanDirectionsFrom(ally: Color, startRow: int, startCol: int)
      returns (inCheck: bool, foundPins: seq<Line>, foundChecks: seq<Line>)
      ensures PinsAndChecks(inCheck, foundPins, foundChecks)
              == ScanDirections(board, ally, startRow, startCol, 0, PinsAndChecks(false, [], []))
    {
      foundPins, foundChecks, inCheck := [], [], false;
      for j := 0 to 8
        invariant ScanDirections(board, ally, startRow, startCol, j, PinsAndChecks(inCheck, foundPins, foundChecks))
                  == ScanDirections(board, ally, startRow, startCol, 0, PinsAndChecks(false, [], []))
      {
        var finding := ScanDirection(ally, startRow, startCol, j);
        match finding
        case Clear =>
        case PinFound(pin) =>
          foundPins := foundPins + [pin];
        case CheckFound(check) =>
          inCheck := true;
          foundChecks := foundChecks + [check];
      }
    }

    /** The loop of CheckForPinsAndChecks over the eight knight squares: an
        enemy knight on one of them is a check. */
    method ScanKnightsFrom(ally: Color, startRow: int, startCol: int, inCheck0: bool, pins: seq<Line>, checks0: seq<Line>)
      returns (inCheck: bool, foundChecks: seq<Line>)
      ensures PinsAndChecks(inCheck, pins, foundChecks)
              == KnightChecks(board, ally, startRow, startCol, 0, PinsAndChecks(inCheck0, pins, checks0))
    {
      var enemy := ally.Opponent();
      inCheck, foundChecks := inCheck0, checks0;
      for k := 0 to 8
        invariant KnightChecks(board, ally, startRow, startCol, k, PinsAndChecks(inCheck, pins, foundChecks))
                  == KnightChecks(board, ally, startRow, startCol, 0, PinsAndChecks(inCheck0, pins, checks0))
      {
        var endRow, endCol := startRow + KnightOffsets[k].0, startCol + KnightOffsets[k].1;
        if 0 <= endRow < 8 && 0 <= endCol < 8 {
          var endPiece := board[endRow][endCol];
          if endPiece == Occupied(enemy, Knight) {
            inCheck := true;
            foundChecks := foundChecks + [Line(endRow, endCol, KnightOffsets[k].0, KnightOffsets[k].1)];
          }
        }
      }
    }

    /** The walk along direction j of CheckForPinsAndChecks: the first allied
        piece (other than a king) is a possible pin, a second one ends the
        walk, and the first enemy piece that attacks along the ray turns the
        possible pin into a pin, or gives a check when there is none. */
    method ScanDirection(ally: Color, startRow: int, startCol: int, j: nat) returns (finding: RayFinding)
      requires j < 8
      ensures finding == ScanRay(board, ally, startRow, startCol, j, 1, None)
    {
      var enemy := ally.Opponent();
      var direction := Directions[j];
      var possiblePin: Option<Line> := None;
      finding := Clear;
      var i := 1;
      while i < 8
        invariant 1 <= i <= 8
        invariant possiblePin.Some? ==>
                    (&& OnBoard(possiblePin.value.row, possiblePin.value.col)
                     && HasColor(board[possiblePin.value.row][possiblePin.value.col], ally)
                     && (possiblePin.value.dRow, possiblePin.value.dCol) == Directions[j])
        invariant ScanRay(board, ally, startRow, startCol, j, i, possiblePin) == ScanRay(board, ally, startRow, startCol, j, 1, None)
        invariant finding == Clear
        decreases 8 - i
      {
        var endRow, endCol := startRow + direction.0 * i, startCol + direction.1 * i;
        ghost var here := ScanRay(board, ally, startRow, startCol, j, i, possiblePin);
        assert (endRow, endCol) == RayPoint(startRow, startCol, Directions[j], i);
        if 0 <= endRow < 8 && 0 <= endCol < 8 {
          var endPiece := board[endRow][endCol];
          if HasColor(endPiece, ally) && endPiece.kind != King {
            if possiblePin == None {
              possiblePin := Some(Line(endRow, endCol, direction.0, direction.1));
              assert here == ScanRay(board, ally, startRow, startCol, j, i + 1, possiblePin);
            } else {
              assert here == Clear;
              return;
            }
          } else if HasColor(endPiece, enemy) {
            if CanCheckAlong(j, i, endPiece.kind, enemy) {
              if possiblePin == None {
                finding := CheckFound(Line(endRow, endCol, direction.0, direction.1));
              } else {
                finding := PinFound(possiblePin.value);
              }
            }
            assert here == finding;
            return;
          } else {
            assert here == ScanRay(board, ally, startRow, startCol, j, i + 1, possiblePin);
          }
        } else {
          assert here == Clear;
          return;
        }
        i := i + 1;
      }
    }

    // -------------------------------------------------------------------
    // Piece generators

    /** The pin search at the head of each piece generator: the pin list is
        scanned from its last entry back, and the first entry on (row, col)
        gives the pin direction and, when `remove`, is taken off the list. */
    method FindPin(row: int, col: int, remove: bool) returns (piecePinned: bool, pinDirection: (int, int))
      modifies this`pins
      ensures PinLookup(piecePinned, pinDirection, pins) == TakePin(old(pins), row, col, remove)
    {
      piecePinned, pinDirection := false, (0, 0);
      for i := |pins| downto 0
        invariant pins == old(pins)
        invariant PinIndex(pins, row, col, i) == PinIndex(pins, row, col, |pins|)
      {
        if pins[i].row == row && pins[i].col == col {
          piecePinned := true;
          pinDirection := (pins[i].dRow, pins[i].dCol);
          if remove {
            pins := RemoveFirst(pins, pins[i]);
          }
          return;
        }
      }
    }

    /** The inner loop of the rook, bishop and queen generators: the squares
        along direction d, up to seven steps away. */
    method SlideAlong(row: int, col: int, d: (int, int), piecePinned: bool, pinDirection: (int, int), moves: seq<Move>)
      returns (moves': seq<Move>)
      requires OnBoard(row, col)
      ensures moves' == moves + RayMoves(CurrentScene(), row, col, d, piecePinned, pinDirection, 1)
    {
      ghost var sc := CurrentScene();
      moves' := moves;
      for i := 1 to 8
        invariant moves' + RayMoves(sc, row, col, d, piecePinned, pinDirection, i)
                  == moves + RayMoves(sc, row, col, d, piecePinned, pinDirection, 1)
      {
        var added, stop := SlideStep(row, col, d, piecePinned, pinDirection, i);
        ghost var rest := RayMoves(sc, row, col, d, piecePinned, pinDirection, i + 1);
        if stop {
          moves' := moves' + added;
          return;
        }
        ConcatAssoc(moves', added, rest);
        moves' := moves' + added;
      }
    }

    /** Step i of SlideAlong: the move it appends, and whether the loop
        breaks there. */
    method SlideStep(row: int, col: int, d: (int, int), piecePinned: bool, pinDirection: (int, int), i: nat)
      returns (added: seq<Move>, stop: bool)
      requires OnBoard(row, col) && 1 <= i < 8
      ensures RayMoves(CurrentScene(), row, col, d, piecePinned, pinDirection, i)
              == if stop then added else added + RayMoves(CurrentScene(), row, col, d, piecePinned, pinDirection, i + 1)
    {
      var enemy := if whiteToMove then Black else White;
      added, stop := [], false;
      var endRow, endCol := row + d.0 * i, col + d.1 * i;
      if 0 <= endRow < 8 && 0 <= endCol < 8 {
        if !piecePinned || pinDirection == d || pinDirection == (-d.0, -d.1) {
          var endPiece := board[endRow][endCol];
          if endPiece == Empty {
            added := [NewMove((row, col), (endRow, endCol), board, false, false, None)];
          } else if HasColor(endPiece, enemy) {
            added := [NewMove((row, col), (endRow, endCol), board, false, false, None)];
            stop := true;
          } else {
            stop := true;
          }
        } else {
          stop := true;
        }
      }
    }

    /** The outer loop of the slider generators, over their directions. */
    method Slide(row: int, col: int, dirs: seq<(int, int)>, piecePinned: bool, pinDirection: (int, int), moves: seq<Move>)
      returns (moves': seq<Move>)
      requires OnBoard(row, col)
      ensures moves' == moves + SliderMoves(CurrentScene(), row, col, dirs, piecePinned, pinDirection)
    {
      ghost var sc := CurrentScene();
      moves' := moves;
      assert dirs[0..] == dirs;
      for k := 0 to |dirs|
        invariant moves' + SliderMoves(sc, row, col, dirs[k..], piecePinned, pinDirection)
                  == moves + SliderMoves(sc, row, col, dirs, piecePinned, pinDirection)
      {
        ghost var ray := RayMoves(sc, row, col, dirs[k], piecePinned, pinDirection, 1);
        ghost var rest := SliderMoves(sc, row, col, dirs[k + 1..], piecePinned, pinDirection);
        assert SliderMoves(sc, row, col, dirs[k..], piecePinned, pinDirection) == ray + rest by {
          assert dirs[k..][0] == dirs[k] && dirs[k..][1..] == dirs[k + 1..];
        }
        ConcatAssoc(moves', ray, rest);
        moves' := SlideAlong(row, col, dirs[k], piecePinned, pinDirection, moves');
      }
    }

    /** A pinned rook keeps its pin entry when the piece on its square is a
        queen (GetQueenMoves takes it off instead). */
    method GetRookMoves(row: int, col: int, moves: seq<Move>) returns (moves': seq<Move>)
      requires OnBoard(row, col)
      modifies this`pins
      ensures var r := RookMoves(CurrentScene(), old(pins), row, col);
              moves' == moves + r.0 && pins == r.1
    {
      var piecePinned, pinDirection := FindPin(row, col, PieceLetter(board[row][col]) != 'Q');
      moves' := Slide(row, col, RookDirections, piecePinned, pinDirection, moves);
    }

    method GetBishopMoves(row: int, col: int, moves: seq<Move>) returns (moves': seq<Move>)
      requires OnBoard(row, col)
      modifies this`pins
      ensures var r := BishopMoves(CurrentScene(), old(pins), row, col);
              moves' == moves + r.0 && pins == r.1
    {
      var piecePinned, pinDirection := FindPin(row, col, true);
      moves' := Slide(row, col, BishopDirections, piecePinned, pinDirection, moves);
    }

    method GetQueenMoves(row: int, col: int, moves: seq<Move>) returns (moves': seq<Move>)
      requires OnBoard(row, col)
      modifies this`pins
      ensures var r := QueenMoves(CurrentScene(), old(pins), row, col);
              moves' == moves + r.0 && pins == r.1
    {
      var piecePinned, pinDirection := FindPin(row, col, true);
      moves' := Slide(row, col, QueenDirections, piecePinned, pinDirection, moves);
    }

    /** A pinned knight has no moves; otherwise every on-board jump not onto
        an allied piece. */
    method GetKnightMoves(row: int, col: int, moves: seq<Move>) returns (moves': seq<Move>)
      requires OnBoard(row, col)
      modifies this`pins
      ensures var r := KnightMoves(CurrentScene(), old(pins), row, col);
              moves' == moves + r.0 && pins == r.1
    {
      var piecePinned, _ := FindPin(row, col, true);
      moves' := KnightJumpsFrom(row, col, piecePinned, moves);
    }

    /** The jump loop of GetKnightMoves. */
    method KnightJumpsFrom(row: int, col: int, piecePinned: bool, moves: seq<Move>) returns (moves': seq<Move>)
      requires OnBoard(row, col)
      ensures moves' == moves + KnightJumps(CurrentScene(), row, col, piecePinned, 0)
    {
      ghost var sc := CurrentScene();
      moves' := moves;
      for k := 0 to 8
        invariant moves' + KnightJumps(sc, row, col, piecePinned, k) == moves + KnightJumps(sc, row, col, piecePinned, 0)
      {
        var added := KnightJumpTo(row, col, piecePinned, k);
        assert KnightJumps(sc, row, col, piecePinned, k) == added + KnightJumps(sc, row, col, piecePinned, k + 1);
        ConcatAssoc(moves', added, KnightJumps(sc, row, col, piecePinned, k + 1));
        moves' := moves' + added;
      }
    }

    /** One pass of the jump loop: the k-th knight offset, when it stays on
        the board, the knight is not pinned and no allied piece is there. */
    method KnightJumpTo(row: int, col: int, piecePinned: bool, k: int) returns (added: seq<Move>)
      requires OnBoard(row, col) && 0 <= k < 8
      ensures added == KnightJump(CurrentScene(), row, col, piecePinned, k)
    {
      var ally := if whiteToMove then White else Black;
      var endRow, endCol := row + KnightOffsets[k].0, col + KnightOffsets[k].1;
      added := [];
      if 0 <= endRow < 8 && 0 <= endCol < 8 {
        if !piecePinned {
          var endPiece := board[endRow][endCol];
          if !HasColor(endPiece, ally) {
            added := [NewMove((row, col), (endRow, endCol), board, false, false, None)];
          }
        }
      }
    }

    /** A pinned pawn moves only along its pin: forward when pinned along
        its file, diagonally when pinned along that diagonal. */
    method GetPawnMoves(row: int, col: int, moves: seq<Move>) returns (moves': seq<Move>)
      requires OnBoard(row, col) && OnBoard(row + Forward(whiteToMove), col)
      requires OnBoard(CurrentScene().AllyKing().0, CurrentScene().AllyKing().1)
      modifies this`pins
      ensures var r := PawnMoves(CurrentScene(), old(pins), row, col);
              moves' == moves + r.0 && pins == r.1
    {
      var piecePinned, pinDirection := FindPin(row, col, true);
      ghost var sc := CurrentScene();
      ghost var advances := PawnAdvances(sc, row, col, piecePinned, pinDirection);
      ghost var left := PawnCaptures(sc, row, col, piecePinned, pinDirection, -1);
      moves' := PawnAdvance(row, col, piecePinned, pinDirection, moves);
      moves' := PawnCapture(row, col, piecePinned, pinDirection, -1, moves');
      ConcatAssoc(moves, advances, left);
      moves' := PawnCapture(row, col, piecePinned, pinDirection, 1, moves');
      ConcatAssoc(moves, advances + left, PawnCaptures(sc, row, col, piecePinned, pinDirection, 1));
    }

    /** The forward moves of GetPawnMoves: one row, as four promotions on
        the last row, and two rows from the start row over an empty square. */
    method PawnAdvance(row: int, col: int, piecePinned: bool, pinDirection: (int, int), moves: seq<Move>)
      returns (moves': seq<Move>)
      requires OnBoard(row, col) && OnBoard(row + Forward(whiteToMove), col)
      ensures moves' == moves + PawnAdvances(CurrentScene(), row, col, piecePinned, pinDirection)
    {
      var moveAmount := if whiteToMove then -1 else 1;
      var startRow := if whiteToMove then 6 else 1;
      moves' := moves;
      if board[row + moveAmount][col] == Empty {
        if !piecePinned || pinDirection == (moveAmount, 0) {
          ghost var first := moves';
          if (whiteToMove && row + moveAmount == 0) || (!whiteToMove && row + moveAmount == 7) {
            moves' := AddPromotions((row, col), (row + moveAmount, col), moves');
          } else {
            moves' := moves' + [NewMove((row, col), (row + moveAmount, col), board, false, false, None)];
          }
          ghost var single := moves'[|first|..];
          assert moves' == first + single;
          if row == startRow && board[row + 2 * moveAmount][col] == Empty {
            var double := NewMove((row, col), (row + 2 * moveAmount, col), board, false, false, None);
            ConcatAssoc(first, single, [double]);
            moves' := moves' + [double];
          }
        }
      }
    }

    /** The loop over the promotion pieces Q, R, B, N. */
    method AddPromotions(from: Square, to: Square, moves: seq<Move>) returns (moves': seq<Move>)
      requires OnBoard(from.0, from.1) && OnBoard(to.0, to.1)
      ensures moves' == moves + PromotionMoves(board, from, to)
    {
      ghost var promotions := PromotionMoves(board, from, to);
      moves' := moves;
      for k := 0 to 4
        invariant moves' == moves + promotions[..k]
      {
        assert promotions[..k + 1] == promotions[..k] + [promotions[k]];
        ConcatAssoc(moves, promotions[..k], [promotions[k]]);
        moves' := moves' + [NewMove(from, to, board, false, false, Some(PromotionKinds[k]))];
      }
      assert promotions[..4] == promotions;
    }

    /** The captures of GetPawnMoves to one side (side -1 for the left, 1
        for the right): onto an enemy piece (four promotions on the last
        row), then en passant onto the recorded target when the exposure
        test allows it. */
    method PawnCapture(row: int, col: int, piecePinned: bool, pinDirection: (int, int), side: int, moves: seq<Move>)
      returns (moves': seq<Move>)
      requires OnBoard(row, col) && OnBoard(row + Forward(whiteToMove), col) && (side == -1 || side == 1)
      requires OnBoard(CurrentScene().AllyKing().0, CurrentScene().AllyKing().1)
      ensures moves' == moves + PawnCaptures(CurrentScene(), row, col, piecePinned, pinDirection, side)
    {
      var moveAmount := if whiteToMove then -1 else 1;
      moves' := moves;
      if 0 <= col + side <= 7 {
        if !piecePinned || pinDirection == (moveAmount, side) {
          moves' := PawnTake(row, col, side, moves');
          moves' := EnPassantTake(row, col, side, moves');
          ConcatAssoc(moves, PawnTakes(CurrentScene(), row, col, side), EnPassantTakes(CurrentScene(), row, col, side));
        }
      }
    }

    /** The ordinary capture of PawnCapture. */
    method PawnTake(row: int, col: int, side: int, moves: seq<Move>) returns (moves': seq<Move>)
      requires OnBoard(row, col) && OnBoard(row + Forward(whiteToMove), col + side)
      ensures moves' == moves + PawnTakes(CurrentScene(), row, col, side)
    {
      var moveAmount := if whiteToMove then -1 else 1;
      var enemyColor := if whiteToMove then Black else White;
      moves' := moves;
      if HasColor(board[row + moveAmount][col + side], enemyColor) {
        if (whiteToMove && row + moveAmount == 0) || (!whiteToMove && row + moveAmount == 7) {
          moves' := AddPromotions((row, col), (row + moveAmount, col + side), moves');
        } else {
          moves' := moves' + [NewMove((row, col), (row + moveAmount, col + side), board, false, false, None)];
        }
      }
    }

    /** The en-passant capture of PawnCapture. */
    method EnPassantTake(row: int, col: int, side: int, moves: seq<Move>) returns (moves': seq<Move>)
      requires OnBoard(row, col) && OnBoard(row + Forward(whiteToMove), col + side) && (side == -1 || side == 1)
      requires OnBoard(CurrentScene().AllyKing().0, CurrentScene().AllyKing().1)
      ensures moves' == moves + EnPassantTakes(CurrentScene(), row, col, side)
    {
      var moveAmount := if whiteToMove then -1 else 1;
      moves' := moves;
      if enPassantPossible == Some((row + moveAmount, col + side)) {
        var allowed := EnPassantExposure(row, col, side);
        if allowed {
          moves' := moves' + [NewMove((row, col), (row + moveAmount, col + side), board, true, false, None)];
        }
      }
    }

    /** The exposure test of an en-passant capture: when the king shares the
        pawn's row, the squares between them must be empty and an enemy rook
        or queen further out must be blocked, else the capture would leave
        the king attacked along the row. */
    method EnPassantExposure(row: int, col: int, side: int) returns (allowed: bool)
      requires OnBoard(row, col) && OnBoard(row, col + side) && (side == -1 || side == 1)
      requires OnBoard(CurrentScene().AllyKing().0, CurrentScene().AllyKing().1)
      ensures allowed == EnPassantAllowed(CurrentScene(), row, col, side)
    {
      var enemyColor := if whiteToMove then Black else White;
      var kingRow, kingCol := if whiteToMove then whiteKingLocation.0 else blackKingLocation.0,
                              if whiteToMove then whiteKingLocation.1 else blackKingLocation.1;
      var attackingPiece, blockingPiece := false, false;
      if kingRow == row {
        var (inLo, inHi, outLo, outHi) := ExposureRanges(col, side, kingCol);
        var i := inLo;
        while i < inHi
          invariant inLo <= i <= 8 && (if inLo <= inHi then i <= inHi else i == inLo)
          invariant blockingPiece == OccupiedIn(board, row, inLo, i)
          decreases inHi - i
        {
          RangeScanNext(board, row, inLo, i, enemyColor);
          if board[row][i] != Empty {
            blockingPiece := true;
          }
          i := i + 1;
        }
        if inHi < inLo {
          RangeScanEmpty(board, row, inLo, inHi, enemyColor);
          RangeScanEmpty(board, row, inLo, inLo, enemyColor);
        }
        assert blockingPiece == OccupiedIn(board, row, inLo, inHi);
        i := outLo;
        RangeScanEmpty(board, row, outLo, outLo, enemyColor);
        while i < outHi
          invariant outLo <= i <= 8 && (if outLo <= outHi then i <= outHi else i == outLo)
          invariant attackingPiece == SliderIn(board, row, outLo, i, enemyColor)
          invariant blockingPiece == (OccupiedIn(board, row, inLo, inHi) || OtherIn(board, row, outLo, i, enemyColor))
          decreases outHi - i
        {
          RangeScanNext(board, row, outLo, i, enemyColor);
          var square := board[row][i];
          if HasColor(square, enemyColor) && (square.kind == Rook || square.kind == Queen) {
            attackingPiece := true;
          } else if square != Empty {
            blockingPiece := true;
          }
          i := i + 1;
        }
        if outHi < outLo {
          RangeScanEmpty(board, row, outLo, outHi, enemyColor);
          RangeScanEmpty(board, row, outLo, outLo, enemyColor);
        }
        assert attackingPiece == SliderIn(board, row, outLo, outHi, enemyColor);
        assert blockingPiece == (OccupiedIn(board, row, inLo, inHi) || OtherIn(board, row, outLo, outHi, enemyColor));
      }
      allowed := !attackingPiece || blockingPiece;
    }

    /** Each king step not onto an allied piece is tried by moving the king
        location there and rerunning CheckForPinsAndChecks; the location is
        put back on (row, col) after each try. */
    method GetKingMoves(row: int, col: int, moves: seq<Move>) returns (moves': seq<Move>)
      requires OnBoard(row, col)
      modifies this`whiteKingLocation, this`blackKingLocation
      ensures moves' == moves + KingMoves(old(CurrentScene()), row, col)
      ensures whiteToMove ==> blackKingLocation == old(blackKingLocation) &&
                              whiteKingLocation == if KingProbes(old(CurrentScene()), row, col, 8) then (row, col) else old(whiteKingLocation)
      ensures !whiteToMove ==> whiteKingLocation == old(whiteKingLocation) &&
                               blackKingLocation == if KingProbes(old(CurrentScene()), row, col, 8) then (row, col) else old(blackKingLocation)
    {
      ghost var sc := CurrentScene();
      moves' := moves;
      for k := 0 to 8
        invariant KingLoop(sc, row, col, k, moves, moves', CurrentScene())
      {
        moves' := TryKingStep(sc, row, col, k, moves, moves');
      }
    }

    /** One iteration of GetKingMoves keeps KingLoop. */
    method TryKingStep(ghost sc: Scene, row: int, col: int, k: nat, ghost moves0: seq<Move>, moves: seq<Move>)
      returns (moves': seq<Move>)
      requires OnBoard(row, col) && k < 8
      requires KingLoop(sc, row, col, k, moves0, moves, CurrentScene())
      modifies this`whiteKingLocation, this`blackKingLocation
      ensures KingLoop(sc, row, col, k + 1, moves0, moves', CurrentScene())
    {
      ghost var before := CurrentScene();
      moves' := KingStepFrom(row, col, k, moves);
      KingLoopNext(sc, row, col, k, moves0, moves, moves', before, CurrentScene());
    }

    /** The body of the loop of GetKingMoves for step k. */
    method KingStepFrom(row: int, col: int, k: nat, moves: seq<Move>) returns (moves': seq<Move>)
      requires OnBoard(row, col) && k < 8
      modifies this`whiteKingLocation, this`blackKingLocation
      ensures moves' == moves + KingStep(old(CurrentScene()), row, col, k)
      ensures whiteToMove ==> blackKingLocation == old(blackKingLocation) &&
                              whiteKingLocation == if KingProbe(old(CurrentScene()), row, col, k) then (row, col) else old(whiteKingLocation)
      ensures !whiteToMove ==> whiteKingLocation == old(whiteKingLocation) &&
                               blackKingLocation == if KingProbe(old(CurrentScene()), row, col, k) then (row, col) else old(blackKingLocation)
    {
      ghost var sc := CurrentScene();
      var ally := if whiteToMove then White else Black;
      moves' := moves;
      var endRow, endCol := row + KingRowMoves[k], col + KingColMoves[k];
      if 0 <= endRow < 8 && 0 <= endCol < 8 {
        var endPiece := board[endRow][endCol];
        if !HasColor(endPiece, ally) {
          assert KingProbe(sc, row, col, k);
          var safe := TryKingOn(row, col, endRow, endCol);
          var m := NewMove((row, col), (endRow, endCol), board, false, false, None);
          assert KingStep(sc, row, col, k) == if safe then [m] else [];
          if safe {
            moves' := moves' + [m];
          }
        } else {
          assert !KingProbe(sc, row, col, k) && KingStep(sc, row, col, k) == [];
        }
      } else {
        assert !KingProbe(sc, row, col, k) && KingStep(sc, row, col, k) == [];
      }
    }

    /** The body of GetKingMoves for one target: the king location is moved
        to (endRow, endCol), CheckForPinsAndChecks is rerun, and the
        location is put back on (row, col). */
    method TryKingOn(row: int, col: int, endRow: int, endCol: int) returns (safe: bool)
      modifies this`whiteKingLocation, this`blackKingLocation
      ensures safe == !Attacked(board, whiteToMove, endRow, endCol)
      ensures safe == !Threatened(board, whiteToMove, endRow, endCol)
      ensures whiteToMove ==> whiteKingLocation == (row, col) && blackKingLocation == old(blackKingLocation)
      ensures !whiteToMove ==> blackKingLocation == (row, col) && whiteKingLocation == old(whiteKingLocation)
    {
      if whiteToMove {
        whiteKingLocation := (endRow, endCol);
      } else {
        blackKingLocation := (endRow, endCol);
      }
      var inCheck, _, _ := CheckForPinsAndChecks();
      InCheckFlag(board, whiteToMove, endRow, endCol);
      safe := !inCheck;
      if whiteToMove {
        whiteKingLocation := (row, col);
      } else {
        blackKingLocation := (row, col);
      }
    }

    // -------------------------------------------------------------------
    // GetAllPossibleMoves, SquareUnderAttack, inCheck

    /** The body of GetAllPossibleMoves for one square: a piece of the side
        to move is handed to the generator of its kind. */
    method MovesFrom(row: int, col: int, moves: seq<Move>) returns (moves': seq<Move>)
      requires OnBoard(row, col) && WellPlaced(CurrentScene()) && KingsAgree(CurrentScene())
      modifies this`pins, this`whiteKingLocation, this`blackKingLocation
      ensures CurrentScene() == old(CurrentScene())
      ensures var r := PieceMoves(old(CurrentScene()), old(pins), row, col);
              moves' == moves + r.0 && pins == r.1
    {
      var piece := board[row][col];
      if (HasColor(piece, White) && whiteToMove) || (HasColor(piece, Black) && !whiteToMove) {
        match piece.kind
        case Pawn =>
          assert NoPawnOnLastRank(board, col);
          moves' := GetPawnMoves(row, col, moves);
        case Rook => moves' := GetRookMoves(row, col, moves);
        case Knight => moves' := GetKnightMoves(row, col, moves);
        case Bishop => moves' := GetBishopMoves(row, col, moves);
        case Queen => moves' := GetQueenMoves(row, col, moves);
        case King =>
          assert KingAgrees(CurrentScene(), row, col);
          moves' := GetKingMoves(row, col, moves);
      } else {
        moves' := moves;
      }
    }

    /** Every move of every piece of the side to move, square by square,
        ignoring checks. */
    method GetAllPossibleMoves() returns (moves: seq<Move>)
      requires WellPlaced(CurrentScene()) && KingsAgree(CurrentScene())
      modifies this`pins, this`whiteKingLocation, this`blackKingLocation
      ensures CurrentScene() == old(CurrentScene())
      ensures var r := AllPossibleMoves(old(CurrentScene()), old(pins));
              moves == r.0 && pins == r.1
    {
      ghost var sc := CurrentScene();
      ghost var all := PossibleFrom(sc, pins, 0);
      moves := [];
      for row := 0 to 8
        invariant CurrentScene() == sc
        invariant moves + PossibleFrom(sc, pins, row).0 == all.0 && PossibleFrom(sc, pins, row).1 == all.1
      {
        ghost var here := RowFrom(sc, pins, row, 0);
        ConcatAssoc(moves, here.0, PossibleFrom(sc, here.1, row + 1).0);
        moves := RowMoves(row, moves);
      }
    }

    /** The column loop of GetAllPossibleMoves over one row. */
    method RowMoves(row: int, moves: seq<Move>) returns (moves': seq<Move>)
      requires 0 <= row < 8 && WellPlaced(CurrentScene()) && KingsAgree(CurrentScene())
      modifies this`pins, this`whiteKingLocation, this`blackKingLocation
      ensures CurrentScene() == old(CurrentScene())
      ensures var r := RowFrom(old(CurrentScene()), old(pins), row, 0);
              moves' == moves + r.0 && pins == r.1
    {
      ghost var sc := CurrentScene();
      ghost var all := RowFrom(sc, pins, row, 0);
      moves' := moves;
      for col := 0 to 8
        invariant CurrentScene() == sc
        invariant moves' + RowFrom(sc, pins, row, col).0 == moves + all.0 && RowFrom(sc, pins, row, col).1 == all.1
      {
        ghost var here := PieceMoves(sc, pins, row, col);
        ConcatAssoc(moves', here.0, RowFrom(sc, here.1, row, col + 1).0);
        moves' := MovesFrom(row, col, moves');
      }
    }

    /** Whether the opponent could move a piece onto (row, col): the side to
        move is flipped for one GetAllPossibleMoves, whose pin removals
        stay in the pin list. */
    method SquareUnderAttack(row: int, col: int) returns (attacked: bool)
      requires WellPlaced(CurrentScene()) && KingsAgree(CurrentScene())
      modifies this`whiteToMove, this`pins, this`whiteKingLocation, this`blackKingLocation
      ensures CurrentScene() == old(CurrentScene())
      ensures (pins, attacked) == UnderAttack(old(CurrentScene()), old(pins), row, col)
    {
      KingsAgreeFlipped(CurrentScene());
      whiteToMove := !whiteToMove;
      var opponentMoves := OpponentMoves();
      whiteToMove := !whiteToMove;
      attacked := EndsOnSquare(opponentMoves, row, col);
    }

    /** GetAllPossibleMoves for the side not to move. */
    method OpponentMoves() returns (moves: seq<Move>)
      requires WellPlaced(CurrentScene()) && KingsAgree(CurrentScene())
      modifies this`pins, this`whiteKingLocation, this`blackKingLocation
      ensures CurrentScene() == old(CurrentScene())
      ensures var r := AllPossibleMoves(old(CurrentScene()), old(pins)); moves == r.0 && pins == r.1
    {
      moves := GetAllPossibleMoves();
    }

    /** inCheck: whether the opponent attacks the king of the side to move. */
    method InCheck() returns (check: bool)
      requires WellPlaced(CurrentScene()) && KingsAgree(CurrentScene())
      modifies this`whiteToMove, this`pins, this`whiteKingLocation, this`blackKingLocation
      ensures CurrentScene() == old(CurrentScene())
      ensures (pins, check) == UnderAttack(old(CurrentScene()), old(pins), old(CurrentScene()).AllyKing().0, old(CurrentScene()).AllyKing().1)
    {
      if whiteToMove {
        check := SquareUnderAttack(whiteKingLocation.0, whiteKingLocation.1);
      } else {
        check := SquareUnderAttack(blackKingLocation.0, blackKingLocation.1);
      }
    }

    // -------------------------------------------------------------------
    // Castling

    /** Castling is tried only from a square not under attack, then on each
        side whose right is still held. */
    method GetCastleMoves(row: int, col: int, moves: seq<Move>) returns (moves': seq<Move>)
      requires WellPlaced(CurrentScene()) && KingsAgree(CurrentScene()) && OnBoard(row, col)
      requires col == CurrentScene().AllyKing().1 && CastleRoom(CurrentScene(), currentCastlingRights)
      modifies this`whiteToMove, this`pins, this`whiteKingLocation, this`blackKingLocation
      ensures CurrentScene() == old(CurrentScene())
      ensures var r := CastleMoves(old(CurrentScene()), currentCastlingRights, old(pins), row, col);
              moves' == moves + r.0 && pins == r.1
    {
      ghost var sc := CurrentScene();
      var attacked := SquareUnderAttack(row, col);
      if attacked {
        return moves;
      }
      ghost var king := if (if whiteToMove then currentCastlingRights.whiteKSide else currentCastlingRights.blackKSide)
                        then KingSideCastleMoves(sc, pins, row, col) else ([], pins);
      moves' := moves;
      if (whiteToMove && currentCastlingRights.whiteKSide) || (!whiteToMove && currentCastlingRights.blackKSide) {
        moves' := GetKingSideCastleMoves(row, col, moves');
      }
      ghost var queen := if (if whiteToMove then currentCastlingRights.whiteQSide else currentCastlingRights.blackQSide)
                         then QueenSideCastleMoves(sc, king.1, row, col) else ([], king.1);
      if (whiteToMove && currentCastlingRights.whiteQSide) || (!whiteToMove && currentCastlingRights.blackQSide) {
        moves' := GetQueenSideCastleMoves(row, col, moves');
      }
      ConcatAssoc(moves, king.0, queen.0);
    }

    /** Two empty squares to the king's right, neither attacked. */
    method GetKingSideCastleMoves(row: int, col: int, moves: seq<Move>) returns (moves': seq<Move>)
      requires WellPlaced(CurrentScene()) && KingsAgree(CurrentScene()) && OnBoard(row, col) && col + 2 < 8
      modifies this`whiteToMove, this`pins, this`whiteKingLocation, this`blackKingLocation
      ensures CurrentScene() == old(CurrentScene())
      ensures var r := KingSideCastleMoves(old(CurrentScene()), old(pins), row, col);
              moves' == moves + r.0 && pins == r.1
    {
      moves' := moves;
      if board[row][col + 1] == Empty && board[row][col + 2] == Empty {
        moves' := CastleIfSafe(row, col, 1, moves);
      }
    }

    /** Three empty squares to the king's left, the two nearest not attacked. */
    method GetQueenSideCastleMoves(row: int, col: int, moves: seq<Move>) returns (moves': seq<Move>)
      requires WellPlaced(CurrentScene()) && KingsAgree(CurrentScene()) && OnBoard(row, col) && col >= 3
      modifies this`whiteToMove, this`pins, this`whiteKingLocation, this`blackKingLocation
      ensures CurrentScene() == old(CurrentScene())
      ensures var r := QueenSideCastleMoves(old(CurrentScene()), old(pins), row, col);
              moves' == moves + r.0 && pins == r.1
    {
      moves' := moves;
      if board[row][col - 1] == Empty && board[row][col - 2] == Empty && board[row][col - 3] == Empty {
        moves' := CastleIfSafe(row, col, -1, moves);
      }
    }

    /** The two attack tests shared by the castle generators: the squares
        one and two steps towards the rook (direction dir) must be safe. */
    method CastleIfSafe(row: int, col: int, dir: int, moves: seq<Move>) returns (moves': seq<Move>)
      requires WellPlaced(CurrentScene()) && KingsAgree(CurrentScene())
      requires OnBoard(row, col) && OnBoard(row, col + 2 * dir)
      modifies this`whiteToMove, this`pins, this`whiteKingLocation, this`blackKingLocation
      ensures CurrentScene() == old(CurrentScene())
      ensures var r := SafeCastle(old(CurrentScene()), old(pins), row, col, dir);
              moves' == moves + r.0 && pins == r.1
    {
      moves' := moves;
      var first := SquareUnderAttack(row, col + dir);
      if !first {
        var second := SquareUnderAttack(row, col + 2 * dir);
        if !second {
          moves' := moves + [NewMove((row, col), (row, col + 2 * dir), board, false, true, None)];
        }
      }
    }

    // -------------------------------------------------------------------
    // GetValidMoves

    /** The legal moves of the side to move; also sets inCheckFlag, pins,
        checks and, when no move is left, Checkmate or Stalemate. The
        castling rights are saved first and put back at the end. */
    method GetValidMoves() returns (moves: seq<Move>)
      requires WellPlaced(CurrentScene()) && KingsAgree(CurrentScene())
      requires CastleRoom(CurrentScene(), currentCastlingRights)
      modifies this`whiteToMove, this`pins, this`whiteKingLocation, this`blackKingLocation,
               this`inCheckFlag, this`checks, this`checkmate, this`stalemate, this`currentCastlingRights
      ensures CurrentScene() == old(CurrentScene()) && currentCastlingRights == old(currentCastlingRights)
      ensures Validity(moves, inCheckFlag, pins, checks, checkmate, stalemate)
              == ValidMoves(old(CurrentScene()), old(currentCastlingRights), old(checkmate), old(stalemate))
    {
      var tempCastleRights := currentCastlingRights;
      ghost var sc, flags := CurrentScene(), (checkmate, stalemate);
      moves := [];
      var kingRow, kingCol := FindPinsAndChecks();
      ghost var found := PinsAndChecks(inCheckFlag, pins, checks);
      moves := CandidateMoves(kingRow, kingCol);
      ghost var gen := (moves, pins);
      assert gen == Candidates(sc, tempCastleRights, found) && CurrentScene() == sc;
      assert (checkmate, stalemate) == flags;
      SetEndFlags(moves);
      ValidMovesParts(sc, tempCastleRights, flags.0, flags.1, found, gen, (pins, checkmate, stalemate));
      currentCastlingRights := tempCastleRights;
    }

    /** The first step of GetValidMoves: the pins and checks around the
        king of the side to move, stored in the state. */
    method FindPinsAndChecks() returns (kingRow: int, kingCol: int)
      modifies this`inCheckFlag, this`pins, this`checks
      ensures (kingRow, kingCol) == CurrentScene().AllyKing()
      ensures PinsAndChecks(inCheckFlag, pins, checks) == PinsAndChecksAt(board, whiteToMove, kingRow, kingCol)
      ensures forall c :: c in checks ==> OnBoard(c.row, c.col)
    {
      inCheckFlag, pins, checks := CheckForPinsAndChecks();
      kingRow, kingCol := if whiteToMove then whiteKingLocation.0 else blackKingLocation.0,
                          if whiteToMove then whiteKingLocation.1 else blackKingLocation.1;
      ChecksOnBoard(board, whiteToMove, kingRow, kingCol);
    }

    /** The three branches of GetValidMoves: a single check, a double check
        (king moves only), or no check (every move plus castling). */
    method CandidateMoves(kingRow: int, kingCol: int) returns (moves: seq<Move>)
      requires WellPlaced(CurrentScene()) && KingsAgree(CurrentScene())
      requires CastleRoom(CurrentScene(), currentCastlingRights) && (kingRow, kingCol) == CurrentScene().AllyKing()
      requires forall c :: c in checks ==> OnBoard(c.row, c.col)
      modifies this`whiteToMove, this`pins, this`whiteKingLocation, this`blackKingLocation
      ensures CurrentScene() == old(CurrentScene())
      ensures (moves, pins) == Candidates(old(CurrentScene()), currentCastlingRights, PinsAndChecks(inCheckFlag, old(pins), checks))
    {
      moves := [];
      if inCheckFlag {
        if |checks| == 1 {
          assert checks[0] in checks;
          moves := SingleCheckMovesFrom(kingRow, kingCol, checks[0]);
        } else {
          ghost var sc := CurrentScene();
          moves := GetKingMoves(kingRow, kingCol, moves);
          assert CurrentScene() == sc;
          assert moves == KingMoves(sc, kingRow, kingCol);
        }
      } else {
        ghost var sc := CurrentScene();
        moves := GetAllPossibleMoves();
        assert CurrentScene() == sc;
        moves := GetCastleMoves(kingRow, kingCol, moves);
      }
    }

    /** Checkmate or Stalemate when no move is left, both cleared otherwise. */
    method SetEndFlags(moves: seq<Move>)
      requires WellPlaced(CurrentScene()) && KingsAgree(CurrentScene())
      modifies this`whiteToMove, this`pins, this`whiteKingLocation, this`blackKingLocation, this`checkmate, this`stalemate
      ensures CurrentScene() == old(CurrentScene())
      ensures (pins, checkmate, stalemate) == Verdict(old(CurrentScene()), old(pins), moves, old(checkmate), old(stalemate))
    {
      if |moves| == 0 {
        var check := InCheck();
        if check {
          checkmate := true;
        } else {
          stalemate := true;
        }
      } else {
        checkmate := false;
        stalemate := false;
      }
    }

    /** The single-check branch of GetValidMoves: every possible move, less
        those of a piece other than the king that do not land on a square
        between the king and the checker (the checker's square included). */
    method SingleCheckMovesFrom(kingRow: int, kingCol: int, check: Line) returns (moves: seq<Move>)
      requires WellPlaced(CurrentScene()) && KingsAgree(CurrentScene())
      requires (kingRow, kingCol) == CurrentScene().AllyKing() && OnBoard(check.row, check.col)
      modifies this`pins, this`whiteKingLocation, this`blackKingLocation
      ensures CurrentScene() == old(CurrentScene())
      ensures var r := SingleCheckMoves(old(CurrentScene()), old(pins), check); moves == r.0 && pins == r.1
    {
      moves := GetAllPossibleMoves();
      var validSquares := ValidSquares(kingRow, kingCol, check);
      moves := RemoveUnblockingMoves(moves, validSquares);
    }

    /** The squares a move other than the king's must end on. */
    method ValidSquares(kingRow: int, kingCol: int, check: Line) returns (validSquares: seq<Square>)
      requires OnBoard(check.row, check.col)
      ensures validSquares == CheckSquares(board, kingRow, kingCol, check)
    {
      if PieceLetter(board[check.row][check.col]) == 'N' {
        validSquares := [(check.row, check.col)];
      } else {
        validSquares := BlockingSquares(kingRow, kingCol, check);
      }
    }

    /** The squares from the king towards the checker, stopping on it. */
    static method BlockingSquares(kingRow: int, kingCol: int, check: Line) returns (squares: seq<Square>)
      ensures squares == BlockSquares(kingRow, kingCol, check, 1)
    {
      squares := [];
      for i := 1 to 8
        invariant squares + BlockSquares(kingRow, kingCol, check, i) == BlockSquares(kingRow, kingCol, check, 1)
      {
        var validSquare := (kingRow + check.dRow * i, kingCol + check.dCol * i);
        ghost var rest := BlockSquaresStep(kingRow, kingCol, check, i);
        ConcatAssoc(squares, [validSquare], rest);
        squares := squares + [validSquare];
        if validSquare == (check.row, check.col) {
          return;
        }
      }
    }

    /** The backward removal loop of GetValidMoves. */
    static method RemoveUnblockingMoves(moves: seq<Move>, validSquares: seq<Square>) returns (moves': seq<Move>)
      ensures moves' == RemoveUnblocking(moves, validSquares, |moves| - 1)
    {
      moves' := moves;
      var i := |moves| - 1;
      while i >= 0
        invariant -1 <= i < |moves'|
        invariant RemoveUnblocking(moves', validSquares, i) == RemoveUnblocking(moves, validSquares, |moves| - 1)
        decreases i + 1
      {
        if !moves'[i].IsKingMove() && (moves'[i].endRow, moves'[i].endCol) !in validSquares {
          assert Equals(moves'[i], moves'[i]);
          moves' := RemoveFirstEqual(moves', moves'[i]);
        }
        i := i - 1;
      }
    }
  }

  /** What the loop of GetKingMoves has done after k steps, started in
      position sc with the list moves0: the board and the side to move are
      as they were, the moves of the first k steps are on the list, and the
      mover's king location is back on (row, col) once a step was tried. */
  ghost predicate KingLoop(sc: Scene, row: int, col: int, k: nat, moves0: seq<Move>, moves: seq<Move>, now: Scene)
    requires OnBoard(row, col) && k <= 8
  {
    && now.board == sc.board && now.whiteToMove == sc.whiteToMove && now.enPassant == sc.enPassant
    && moves + KingSteps(sc, row, col, k) == moves0 + KingSteps(sc, row, col, 0)
    && (sc.whiteToMove ==> now.blackKing == sc.blackKing &&
                           now.whiteKing == if KingProbes(sc, row, col, k) then (row, col) else sc.whiteKing)
    && (!sc.whiteToMove ==> now.whiteKing == sc.whiteKing &&
                            now.blackKing == if KingProbes(sc, row, col, k) then (row, col) else sc.blackKing)
  }

  /** One step of GetKingMoves, as KingStepFrom performs it, keeps KingLoop. */
  lemma KingLoopNext(sc: Scene, row: int, col: int, k: nat, moves0: seq<Move>, moves: seq<Move>, moves': seq<Move>,
                     before: Scene, after: Scene)
    requires OnBoard(row, col) && k < 8
    requires KingLoop(sc, row, col, k, moves0, moves, before)
    requires moves' == moves + KingStep(before, row, col, k)
    requires after.board == before.board && after.whiteToMove == before.whiteToMove && after.enPassant == before.enPassant
    requires before.whiteToMove ==> after.blackKing == before.blackKing &&
                                    after.whiteKing == if KingProbe(before, row, col, k) then (row, col) else before.whiteKing
    requires !before.whiteToMove ==> after.whiteKing == before.whiteKing &&
                                     after.blackKing == if KingProbe(before, row, col, k) then (row, col) else before.blackKing
    ensures KingLoop(sc, row, col, k + 1, moves0, moves', after)
  {
    assert KingSteps(sc, row, col, k) == KingStep(sc, row, col, k) + KingSteps(sc, row, col, k + 1);
    ConcatAssoc(moves, KingStep(sc, row, col, k), KingSteps(sc, row, col, k + 1));
    KingProbesNext(sc, row, col, k);
    KingStepSameBoard(before, sc, row, col, k);
  }

  /** The fields as MovePieces, RecordMove and RecordRights leave them make
      up the record Make describes. */
  lemma MadeRecord(s: Record, m: Move, s': Record)
    requires Makeable(m)
    requires s'.board == MakeBoard(s.board, m)
    requires s'.moveLog == s.moveLog + [m]
    requires s'.whitePieces == if HasColor(m.pieceCaptured, White) then s.whitePieces - 1 else s.whitePieces
    requires s'.blackPieces == if HasColor(m.pieceCaptured, Black) then s.blackPieces - 1 else s.blackPieces
    requires s'.whiteToMove == !s.whiteToMove
    requires s'.whiteKing == if m.pieceMoved == Occupied(White, King) then (m.endRow, m.endCol) else s.whiteKing
    requires s'.blackKing == if m.pieceMoved == Occupied(Black, King) then (m.endRow, m.endCol) else s.blackKing
    requires s'.enPassant == EnPassantAfter(m) && s'.enPassantLog == s.enPassantLog + [s'.enPassant]
    requires s'.rights == RevokedRights(s.rights, m) && s'.rightsLog == s.rightsLog + [s'.rights]
    requires s'.checkmate == s.checkmate && s'.stalemate == s.stalemate
    ensures s' == Make(s, m)
  {
  }

  /** The loop of SquareUnderAttack over the opponent's moves, which
      returns at the first move ending on (row, col). */
  method EndsOnSquare(moves: seq<Move>, row: int, col: int) returns (found: bool)
    ensures found == EndsOn(moves, row, col)
  {
    for i := 0 to |moves|
      invariant forall j :: 0 <= j < i ==> !(moves[j].endRow == row && moves[j].endCol == col)
    {
      if moves[i].endRow == row && moves[i].endCol == col {
        return true;
      }
    }
    return false;
  }

  /** One square of BlockSquares: the square i steps along the ray, then the
      rest unless that square holds the checker. */
  lemma BlockSquaresStep(kr: int, kc: int, check: Line, i: nat) returns (rest: seq<Square>)
    requires 1 <= i < 8
    ensures rest == if (kr + check.dRow * i, kc + check.dCol * i) == (check.row, check.col) then []
                    else BlockSquares(kr, kc, check, i + 1)
    ensures BlockSquares(kr, kc, check, i) == [(kr + check.dRow * i, kc + check.dCol * i)] + rest
  {
    rest := if (kr + check.dRow * i, kc + check.dCol * i) == (check.row, check.col) then []
            else BlockSquares(kr, kc, check, i + 1);
  }

  /** GetValidMoves' result assembled from its three stages. */
  lemma ValidMovesParts(sc: Scene, rights: CastleRights, checkmate: bool, stalemate: bool, found: PinsAndChecks,
                        gen: (seq<Move>, seq<Line>), verdict: (seq<Line>, bool, bool))
    requires WellPlaced(sc) && CastleRoom(sc, rights)
    requires found == PinsAndChecksAt(sc.board, sc.whiteToMove, sc.AllyKing().0, sc.AllyKing().1)
    requires forall c :: c in found.checks ==> OnBoard(c.row, c.col)
    requires gen == Candidates(sc, rights, found)
    requires verdict == Verdict(sc, gen.1, gen.0, checkmate, stalemate)
    ensures ValidMoves(sc, rights, checkmate, stalemate)
            == Validity(gen.0, found.inCheck, verdict.0, found.checks, verdict.1, verdict.2)
  {
  }
}
