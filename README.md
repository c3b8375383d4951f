# A verified model of a Python chess engine

This project models the core of a small Python chess engine in Dafny. The engine has three parts:

- `GameState` (in `Chess_Engine/Engine/ChessEngine.py`) holds an 8x8 board of two-character piece codes, the side to move, and three parallel undo stacks: the move log, the en-passant log and the castling-rights log. Its methods make and undo moves, generate legal moves with a pin-and-check scan from the king, and set the Checkmate and Stalemate flags. The `Move` and `CastleRights` values belong to it.
- `ChessAI.py` scores positions by material and searches them. It has a two-ply minimax with flags, a recursive minimax, negamax, and negamax with alpha-beta pruning, all driven by make/undo on the game state.
- `piece_images/Algo_1.py` is an earlier draft of make, undo and legality. Its `GetValidMoves` tries every move and keeps those that leave the mover's king unattacked.

The Dafny modules follow that structure:

- `Pieces` (pieces.dfy): colours, kinds, pieces (`"--"` is `Empty`, `"wK"` is `Occupied(White, King)`), the grid and sums over it.
- `Moves` (moves.dfy): the `Move` value with its identity (`moveID`), equality (`__eq__`), text (`__str__`, `GetChessNotation`, `getRankFile`) and the `CastleRights` value.
- `Bookkeeping` (bookkeeping.dfy): `MakeMove`, `UndoMove` and `UpdateCastleRights` as functions on a record of the fields they touch, and the make/undo round trip.
- `Generation` (generation.dfy): every move generator of the engine as a function of the position. Each returns the same list the engine appends, in the same order, together with the pin list it leaves (the generators remove pin entries as they go).
- `GenerationFacts` (generation_facts.dfy): what the generated moves satisfy (pins respected, clear paths, targets empty or enemy, castling conditions). It also holds the theory of the backward `list.remove` loops, which shows that those loops keep exactly the accepted moves in their original order.
- `Engine` (engine.dfy): the class `GameState` with the engine's fields, updated in place. Every method is proved to leave exactly the state the `Bookkeeping` and `Generation` functions describe.
- `Evaluation` (evaluation.dfy): `pieceScore`, `scoreMaterial` and `BoardScore`.
- `Search` (search.dfy): the four searches. They see the game only through `MakeMove`, `GetValidMoves` and `UndoMove`, so they are modelled over the tree of positions those calls reach, walked by a cursor class. The global `next_move` is a field of a `Searcher` class.
- `Draft` (draft.dfy): the draft as a class over its own fields. Its brute-force `GetValidMoves` is proved to return the order-preserving sub-list of generated moves that do not expose the king.

Positive scores are good for White. `CHECKMATE` is 1000, `STALEMATE` is 0 and `DEPTH` is 3, as in the source.

## Model

| member | source | states |
|---|---|---|
| Pieces.Color.Opponent | Chess_Engine/Engine/ChessEngine.py:248-257 | the enemy colour differs from the ally colour |
| Pieces.Put | Chess_Engine/Engine/ChessEngine.py:56-57 | writing a piece to a square leaves that piece there and keeps every other square |
| Pieces.PutTwice | Chess_Engine/Engine/ChessEngine.py:57-81 | a second write to the end square (promotion or plain arrival) overrides the first |
| Moves.NewMove | Chess_Engine/Engine/ChessEngine.py:688-706 | the move records both squares and the piece on the start square; it records the piece on the end square unless it is en passant, and for en passant it records a captured pawn |
| Moves.MoveIdInjective | Chess_Engine/Engine/ChessEngine.py:706 | on the board, two moves have the same `moveID` iff their four coordinates agree |
| Moves.Equals | Chess_Engine/Engine/ChessEngine.py:711-716 | on the board, equality holds iff the coordinates match, and for a promotion also the promotion piece; every move equals itself |
| Moves.RankTablesInverse | Chess_Engine/Engine/ChessEngine.py:681-683 | `rowsToRanks` inverts `ranksToRanks` on rows 0..7, and row r is rank 8 - r |
| Moves.FileTablesInverse | Chess_Engine/Engine/ChessEngine.py:684-686 | `colsToFiles` inverts `filesToCols` on columns 0..7, and column c is file "abcdefgh"[c] |
| Moves.GetRankFile | Chess_Engine/Engine/ChessEngine.py:750-751 | two characters, file then rank, each read back to its column and row by the forward tables |
| Moves.ToString | Chess_Engine/Engine/ChessEngine.py:721-744 | the text is "0-0" iff the move is a castle ending on column 6, and "0-0-0" iff it is a castle ending elsewhere |
| Moves.ToStringCapture | Chess_Engine/Engine/ChessEngine.py:727-744 | outside castling, the text contains 'x' iff the move captures |
| Moves.ToStringEndSquare | Chess_Engine/Engine/ChessEngine.py:727-744 | outside castling, the text ends with the end square, or for a quiet promotion with "=" and the promotion letter after it |
| Moves.GetChessNotation | Chess_Engine/Engine/ChessEngine.py:746-748 | four characters that read back, through the rank and file tables, to the start and end squares |
| Bookkeeping.Initial | Chess_Engine/Engine/ChessEngine.py:6-50 | the starting state has empty move log and one entry in each undo log, consistent with the current rights |
| Bookkeeping.EnPassantAfter | Chess_Engine/Engine/ChessEngine.py:88-91 | the en-passant target is set iff a pawn moved two rows, and is then the square the pawn passed over: one row from its start and one row from its end, on its arrival column |
| Bookkeeping.EnPassantTargetPassedOver | Chess_Engine/Engine/ChessEngine.py:55-91 | after a straight double push over an empty square, the recorded target is on the board, still empty, and directly behind the pawn that arrived |
| Bookkeeping.RevokedRights | Chess_Engine/Engine/ChessEngine.py:603-638 | no right is ever set to true |
| Bookkeeping.RevokedRightsExactly | Chess_Engine/Engine/ChessEngine.py:603-638 | each right survives iff it held, its king did not move, its rook did not leave its corner, and no rook of that colour was captured on that side's edge column |
| Bookkeeping.Make | Chess_Engine/Engine/ChessEngine.py:55-107 | the move is appended to the log, the turn flips, and no castling right grows |
| Bookkeeping.MakeValid | Chess_Engine/Engine/ChessEngine.py:58-107 | after a move both undo logs still hold one entry per move plus the initial one, and the rights in force are the top of their log |
| Bookkeeping.Undo | Chess_Engine/Engine/ChessEngine.py:113-158 | with an empty log nothing changes. Otherwise the top of all three logs is popped and the turn flips; both end flags are cleared; the en-passant target is taken from the new top of its log, or cleared after a two-row pawn advance |
| Bookkeeping.BoardRoundTrip | Chess_Engine/Engine/ChessEngine.py:56-154 | undoing a move on the grid restores every square, including the en-passant victim and the castled rook |
| Bookkeeping.MakeUndoRoundTrip | Chess_Engine/Engine/ChessEngine.py:55-158 | make then undo restores every field, except that both end flags are cleared and the en-passant target comes from the log top (cleared after a two-row pawn advance) |
| Bookkeeping.PieceCount | Chess_Engine/Engine/ChessEngine.py:36-37 | the number of squares holding a piece of the given colour, which is never negative; InitialCounted and MakeCounted tie it to the two counters |
| Bookkeeping.InitialCounted | Chess_Engine/Engine/ChessEngine.py:11-37 | in a new game each counter equals the number of pieces of its colour on the grid (sixteen), so OnlyKingsPresent is false |
| Bookkeeping.MakeCounted | Chess_Engine/Engine/ChessEngine.py:59-64 | MakeMove keeps both counters equal to the number of pieces of their colour on the grid |
| Bookkeeping.OnlyKingsMeans | Chess_Engine/Engine/ChessEngine.py:314-315 | with accurate counters and both kings where recorded, OnlyKingsPresent holds iff every other square is empty |
| Bookkeeping.RightsOnlyShrink | Chess_Engine/Engine/ChessEngine.py:104-107 | any sequence of moves never strengthens a castling right |
| Evaluation.PieceScore | Chess_Engine/Engine/ChessAI.py:7 | every piece kind has a positive value |
| Evaluation.BoardScore | Chess_Engine/Engine/ChessAI.py:190-208 | checkmate scores -1000 with White to move and +1000 with Black to move; stalemate scores 0; any other position scores its material |
| Evaluation.MaterialIsDifference | Chess_Engine/Engine/ChessAI.py:214-227 | the material score is the total value of White's pieces minus the total value of Black's; empty squares count nothing |
| Evaluation.InitialBalance | Chess_Engine/Engine/ChessAI.py:214-227 | the starting position scores 0 |
| Evaluation.MakeMaterial | Chess_Engine/Engine/ChessAI.py:214-227 | a move changes the material score by the captured piece's value plus, for a promotion, the difference between the new piece and the pawn |
| Generation.KingsAgreeFlipped | Chess_Engine/Engine/ChessEngine.py:334-336 | handing the move to the other side keeps every king where it is recorded |
| Generation.ScanRay | Chess_Engine/Engine/ChessEngine.py:261-298 | a ray scan records a pin only on an allied piece and a check only from an enemy non-knight on that ray, both with the ray's direction; once a piece might be pinned, the scan reports no check and any pin it reports is that piece |
| Generation.ScanRayFinds | Chess_Engine/Engine/ChessEngine.py:262-298 | a check the scan finds is an enemy piece able to check along the ray from its distance, with every square before it empty or the allied king; a pin is an allied non-king over such squares with such an attacker further along |
| Generation.ScanRayMeets | Chess_Engine/Engine/ChessEngine.py:262-298 | conversely, an attacker over such squares is found by the scan, on its own square |
| Generation.KnightChecks | Chess_Engine/Engine/ChessEngine.py:300-308 | the knight probe leaves the pin list unchanged |
| Generation.ScanDirectionsSound | Chess_Engine/Engine/ChessEngine.py:261-298 | the direction loop keeps every recorded pin and check sound |
| Generation.DirectionStepSound | Chess_Engine/Engine/ChessEngine.py:262-298 | one direction of the scan keeps the recorded pins and checks sound |
| Generation.KnightChecksSound | Chess_Engine/Engine/ChessEngine.py:300-308 | the knight loop records only checks from enemy knights a knight's jump away |
| Generation.KnightStepSound | Chess_Engine/Engine/ChessEngine.py:301-308 | one knight square keeps the recorded checks sound |
| Generation.PinsAndChecksSound | Chess_Engine/Engine/ChessEngine.py:244-309 | CheckForPinsAndChecks: every pin is an allied non-king on one of the eight rays, over empty squares or the allied king, shielding the king from an enemy piece able to check along that ray; every check is an enemy piece attacking the king along a clear ray, or an enemy knight a jump away |
| Generation.ScanDirectionsFlag | Chess_Engine/Engine/ChessEngine.py:261-298 | the direction loop raises the flag iff some ray ends in a check |
| Generation.KnightChecksFlag | Chess_Engine/Engine/ChessEngine.py:300-308 | the knight loop raises the flag iff some knight square holds an enemy knight |
| Generation.InCheckFlag | Chess_Engine/Engine/ChessEngine.py:244-309 | the in-check flag is true iff the king's square is Threatened: an enemy piece attacks it along a clear ray or an enemy knight is a jump away |
| Generation.AttackedIsThreatened | Chess_Engine/Engine/ChessEngine.py:244-309 | the scan's attack test (Attacked) holds iff the square is Threatened, a notion stated on the board alone, in both directions |
| Generation.RayCheckFromSome | Chess_Engine/Engine/ChessEngine.py:261-298 | the direction loop finds a check iff the scan of some ray does |
| Generation.KnightCheckFromSome | Chess_Engine/Engine/ChessEngine.py:300-308 | the knight loop finds a check iff an enemy knight stands on some knight square |
| Generation.PinIndex | Chess_Engine/Engine/ChessEngine.py:349-354 | the backward search finds the last pin entry naming the square, or reports that there is none |
| Generation.RemoveFirst | Chess_Engine/Engine/ChessEngine.py:353 | `list.remove` of a present entry drops exactly one occurrence; of an absent one, nothing |
| Generation.TakePin | Chess_Engine/Engine/ChessEngine.py:349-354 | the piece is pinned iff some pin entry names its square; that entry is removed only when removal applies |
| Generation.KingStepSameBoard | Chess_Engine/Engine/ChessEngine.py:574-598 | a king step depends only on the board and the side to move, not on the recorded king locations |
| Generation.KingProbesNext | Chess_Engine/Engine/ChessEngine.py:579-598 | each further step of GetKingMoves' loop adds its own probe of the king location |
| Generation.PromotionMoves | Chess_Engine/Engine/ChessEngine.py:371-372 | exactly four moves, promoting to Q, R, B and N in that order |
| Generation.RangeScanNext | Chess_Engine/Engine/ChessEngine.py:397-405 | scanning one more column of the en-passant exposure ranges extends each of the three findings by that square |
| Generation.RangeScanEmpty | Chess_Engine/Engine/ChessEngine.py:392-396 | an empty column range finds nothing |
| Generation.RemoveFirstEqual | Chess_Engine/Engine/ChessEngine.py:203 | `moves.remove(x)` shortens the list by one when an equal move is present, and adds nothing |
| Generation.ChecksOnBoard | Chess_Engine/Engine/ChessEngine.py:267-308 | every recorded check names a square of the board |
| GenerationFacts.RayMovesSound | Chess_Engine/Engine/ChessEngine.py:457-472 | a rook, bishop or queen moves along a ray only as its pin allows; the move starts on its square with its piece, ends on an empty or enemy square along the ray, and passes only empty squares |
| GenerationFacts.RayStep | Chess_Engine/Engine/ChessEngine.py:459-470 | one square of the ray: the move onto it or a move further on past an empty square |
| GenerationFacts.SliderMovesFromBoard | Chess_Engine/Engine/ChessEngine.py:444-563 | every slider move starts on the board and carries the piece on its start square |
| GenerationFacts.KnightJumpsSound | Chess_Engine/Engine/ChessEngine.py:478-495 | a pinned knight has no moves; a knight move is one of the eight jumps onto a square no ally holds |
| GenerationFacts.KingStepsSound | Chess_Engine/Engine/ChessEngine.py:574-598 | a king move is one of the eight steps onto a square no ally holds and not Threatened |
| GenerationFacts.KingStepSound | Chess_Engine/Engine/ChessEngine.py:580-593 | the move of step k is that step, onto a square no ally holds and not Threatened |
| GenerationFacts.PawnAdvancesSound | Chess_Engine/Engine/ChessEngine.py:367-376 | a pawn advances straight ahead onto empty squares only when unpinned or pinned along its file; two rows only from the start row; it promotes iff it reaches the last row |
| GenerationFacts.PawnCapturesSound | Chess_Engine/Engine/ChessEngine.py:377-438 | a pawn captures diagonally forward only when unpinned or pinned along that diagonal; en passant only onto the recorded target and when the exposure test allows it; otherwise only an enemy piece |
| GenerationFacts.SafeCastleSound | Chess_Engine/Engine/ChessEngine.py:653-662 | a castle moves the king two columns, and neither square it crosses or lands on is attacked |
| GenerationFacts.CastleMovesSound | Chess_Engine/Engine/ChessEngine.py:643-662 | no castle while the king is attacked; a king-side castle needs the right and two empty squares, a queen-side castle the right and three |
| GenerationFacts.PawnMovesFromBoard | Chess_Engine/Engine/ChessEngine.py:346-438 | every pawn move starts on the board with the pawn on its start square |
| GenerationFacts.PieceMovesFromBoard | Chess_Engine/Engine/ChessEngine.py:33-34 | the generator the dispatch table picks produces moves that start on the board with their piece |
| GenerationFacts.RowFromBoard | Chess_Engine/Engine/ChessEngine.py:232-237 | the moves of a row start on the board with their piece |
| GenerationFacts.PossibleFromBoard | Chess_Engine/Engine/ChessEngine.py:231-237 | the moves of the remaining rows start on the board with their piece |
| GenerationFacts.AllPossibleFromBoard | Chess_Engine/Engine/ChessEngine.py:229-238 | every move of GetAllPossibleMoves starts on the board and carries the piece on its start square |
| GenerationFacts.Filter | Chess_Engine/Engine/ChessEngine.py:200-203 | the reference for the removal loops: no longer than the list; only accepted members |
| GenerationFacts.FilterMembers | Chess_Engine/Engine/ChessEngine.py:200-203 | a move passes the filter iff it is in the list and accepted |
| GenerationFacts.FilterAll | Chess_Engine/Engine/ChessEngine.py:200-203 | a list whose every move is accepted passes unchanged |
| GenerationFacts.RemoveRejected | Chess_Engine/Engine/ChessEngine.py:203 | removing the first entry equal to a rejected move keeps the accepted moves |
| GenerationFacts.RemoveFirstEqualSuffix | Chess_Engine/Engine/ChessEngine.py:203 | removing the entry at i (the first equal one) keeps everything after it |
| GenerationFacts.RemoveRejectedAt | Chess_Engine/Engine/ChessEngine.py:200-203 | one removal of the backward loop keeps the accepted moves and the loop's invariant |
| GenerationFacts.BackwardRemoveFrom | Chess_Engine/Engine/ChessEngine.py:200-203 | the backward loop from index i down keeps exactly the accepted moves, in order |
| GenerationFacts.BackwardRemoveFilters | Chess_Engine/Engine/piece_images/Algo_1.py:45-52 | over a whole list whose equal moves are accepted alike, the backward loop is the filter |
| GenerationFacts.RemoveUnblockingFrom | Chess_Engine/Engine/ChessEngine.py:200-203 | the single-check removal loop keeps exactly the king moves and the moves onto the valid squares, in order |
| GenerationFacts.AnswersAgree | Chess_Engine/Engine/ChessEngine.py:201-202 | moves read off one board that are equal are kept or dropped alike |
| GenerationFacts.SingleCheckFilters | Chess_Engine/Engine/ChessEngine.py:183-203 | under a single check the result is every possible move, in order, that is a king move or ends on a valid square |
| GenerationFacts.BlockSquaresOnRay | Chess_Engine/Engine/ChessEngine.py:194-198 | every valid square lies on the ray from the king towards the checker |
| GenerationFacts.BlockSquaresReachChecker | Chess_Engine/Engine/ChessEngine.py:194-198 | the valid squares end on the checker's square |
| GenerationFacts.CheckSquaresEndAtChecker | Chess_Engine/Engine/ChessEngine.py:186-198 | for every recorded check (knight or not) the valid squares end on the checker's square |
| GenerationFacts.ValidMovesVerdict | Chess_Engine/Engine/ChessEngine.py:175-220 | the in-check flag is true iff the mover's king is Threatened; a double check leaves only king moves; with a move left both end flags are cleared; with none left, Checkmate is raised iff some opponent move (SquareUnderAttack) ends on the king's square, Stalemate otherwise, and the other flag keeps its value |
| GenerationFacts.ValidMovesSingleCheck | Chess_Engine/Engine/ChessEngine.py:182-203 | under a single check, a move is returned iff it is a possible move that moves the king or ends on a square between king and checker, the checker included |
| Engine.GameState.constructor | Chess_Engine/Engine/ChessEngine.py:6-50 | the starting position, rights and logs, with no pins or checks |
| Engine.GameState.MakeMove | Chess_Engine/Engine/ChessEngine.py:55-107 | the fields become Make of the old fields |
| Engine.GameState.MovePieces | Chess_Engine/Engine/ChessEngine.py:56-102 | the board becomes the grid after the move, rook hop and en-passant capture included |
| Engine.GameState.RecordMove | Chess_Engine/Engine/ChessEngine.py:58-72 | log appended, captured piece's counter decremented, turn flipped, a moved king's location updated |
| Engine.GameState.RecordRights | Chess_Engine/Engine/ChessEngine.py:87-107 | the en-passant target and revoked rights are set and pushed on their logs |
| Engine.GameState.UndoMove | Chess_Engine/Engine/ChessEngine.py:113-158 | the fields become Undo of the old fields |
| Engine.GameState.UndoLast | Chess_Engine/Engine/ChessEngine.py:114-158 | on a non-empty log, the fields become Undo of the old fields |
| Engine.GameState.RestorePieces | Chess_Engine/Engine/ChessEngine.py:116-135 | the board becomes the grid with the move taken back |
| Engine.GameState.UnrecordMove | Chess_Engine/Engine/ChessEngine.py:115-130 | log popped, captured piece's counter restored, turn flipped, a moved king put back |
| Engine.GameState.RestoreRights | Chess_Engine/Engine/ChessEngine.py:136-158 | both logs popped, target and rights from the new tops (target cleared after a two-row pawn advance), end flags cleared |
| Engine.GameState.MoveCastleRook | Chess_Engine/Engine/ChessEngine.py:96-102 | the rook hop of a castle |
| Engine.GameState.ReturnCastleRook | Chess_Engine/Engine/ChessEngine.py:148-154 | the rook hop taken back |
| Engine.GameState.UpdateCastleRights | Chess_Engine/Engine/ChessEngine.py:603-638 | the rights become RevokedRights of the old rights |
| Engine.GameState.CheckForPinsAndChecks | Chess_Engine/Engine/ChessEngine.py:244-309 | returns the pins, checks and flag of the scan from the mover's king |
| Engine.GameState.ScanDirectionsFrom | Chess_Engine/Engine/ChessEngine.py:261-298 | the direction loop's result |
| Engine.GameState.ScanKnightsFrom | Chess_Engine/Engine/ChessEngine.py:300-308 | the knight loop's result |
| Engine.GameState.ScanDirection | Chess_Engine/Engine/ChessEngine.py:262-298 | the walk along one direction finds what ScanRay says |
| Engine.GameState.FindPin | Chess_Engine/Engine/ChessEngine.py:349-354 | the pin flag, direction and remaining pins are TakePin's |
| Engine.GameState.SlideAlong | Chess_Engine/Engine/ChessEngine.py:458-472 | appends the moves along one ray |
| Engine.GameState.SlideStep | Chess_Engine/Engine/ChessEngine.py:459-472 | one square of a ray: the move added and whether the ray stops |
| Engine.GameState.Slide | Chess_Engine/Engine/ChessEngine.py:457-472 | appends the moves along every direction |
| Engine.GameState.GetRookMoves | Chess_Engine/Engine/ChessEngine.py:444-472 | appends RookMoves and leaves its pin list (a queen keeps its pin) |
| Engine.GameState.GetBishopMoves | Chess_Engine/Engine/ChessEngine.py:501-529 | appends BishopMoves and leaves its pin list |
| Engine.GameState.GetQueenMoves | Chess_Engine/Engine/ChessEngine.py:535-563 | appends QueenMoves and leaves its pin list |
| Engine.GameState.GetKnightMoves | Chess_Engine/Engine/ChessEngine.py:478-495 | appends KnightMoves and leaves its pin list |
| Engine.GameState.KnightJumpsFrom | Chess_Engine/Engine/ChessEngine.py:488-495 | appends the jumps of the loop |
| Engine.GameState.KnightJumpTo | Chess_Engine/Engine/ChessEngine.py:489-495 | the move of one jump, if any |
| Engine.GameState.GetPawnMoves | Chess_Engine/Engine/ChessEngine.py:346-438 | appends PawnMoves and leaves its pin list |
| Engine.GameState.PawnAdvance | Chess_Engine/Engine/ChessEngine.py:367-376 | appends the advances |
| Engine.GameState.AddPromotions | Chess_Engine/Engine/ChessEngine.py:371-372 | appends the four promotions |
| Engine.GameState.PawnCapture | Chess_Engine/Engine/ChessEngine.py:377-438 | appends the captures to one side |
| Engine.GameState.PawnTake | Chess_Engine/Engine/ChessEngine.py:380-385 | appends the ordinary capture or its promotions |
| Engine.GameState.EnPassantTake | Chess_Engine/Engine/ChessEngine.py:386-407 | appends the en-passant capture when allowed |
| Engine.GameState.EnPassantExposure | Chess_Engine/Engine/ChessEngine.py:386-406 | the exposure test's verdict, scanned over the ranges as written |
| Engine.GameState.GetKingMoves | Chess_Engine/Engine/ChessEngine.py:574-598 | appends KingMoves; the other king location is untouched, and the mover's is left on the king's square when some step was tried there, otherwise unchanged |
| Engine.GameState.TryKingStep | Chess_Engine/Engine/ChessEngine.py:580-598 | one step of GetKingMoves' loop keeps the loop invariant |
| Engine.GameState.KingStepFrom | Chess_Engine/Engine/ChessEngine.py:580-598 | appends the move of one king step, if any |
| Engine.GameState.TryKingOn | Chess_Engine/Engine/ChessEngine.py:586-598 | the step is safe iff its square is not Threatened; the king location is restored to the king's square |
| Engine.GameState.MovesFrom | Chess_Engine/Engine/ChessEngine.py:233-237 | appends the moves of the piece on one square |
| Engine.GameState.GetAllPossibleMoves | Chess_Engine/Engine/ChessEngine.py:229-238 | returns AllPossibleMoves and leaves the position as it was |
| Engine.GameState.RowMoves | Chess_Engine/Engine/ChessEngine.py:232-237 | appends the moves of one row |
| Engine.GameState.SquareUnderAttack | Chess_Engine/Engine/ChessEngine.py:333-340 | returns whether an opponent move ends on the square; the turn is restored |
| Engine.GameState.OpponentMoves | Chess_Engine/Engine/ChessEngine.py:334-336 | the possible moves of the side the scene names |
| Engine.GameState.InCheck | Chess_Engine/Engine/ChessEngine.py:321-327 | whether the mover's king square is attacked; the turn is restored |
| Engine.GameState.GetCastleMoves | Chess_Engine/Engine/ChessEngine.py:643-651 | appends CastleMoves |
| Engine.GameState.GetKingSideCastleMoves | Chess_Engine/Engine/ChessEngine.py:653-656 | appends the king-side castle when allowed |
| Engine.GameState.GetQueenSideCastleMoves | Chess_Engine/Engine/ChessEngine.py:659-662 | appends the queen-side castle when allowed |
| Engine.GameState.CastleIfSafe | Chess_Engine/Engine/ChessEngine.py:655-662 | appends a castle whose two squares are not attacked |
| Engine.GameState.GetValidMoves | Chess_Engine/Engine/ChessEngine.py:168-223 | the result and the flags are ValidMoves of the position, which leaves the position and the castling rights as they were |
| Engine.GameState.FindPinsAndChecks | Chess_Engine/Engine/ChessEngine.py:175-181 | the pins, checks and flag of the scan from the mover's king |
| Engine.GameState.CandidateMoves | Chess_Engine/Engine/ChessEngine.py:182-211 | the moves of the single-check, double-check or no-check branch |
| Engine.GameState.SetEndFlags | Chess_Engine/Engine/ChessEngine.py:213-220 | Checkmate or Stalemate when no move is left, both cleared otherwise |
| Engine.GameState.SingleCheckMovesFrom | Chess_Engine/Engine/ChessEngine.py:183-203 | the single-check branch's moves |
| Engine.GameState.ValidSquares | Chess_Engine/Engine/ChessEngine.py:186-198 | the squares answering the check |
| Engine.GameState.BlockingSquares | Chess_Engine/Engine/ChessEngine.py:194-198 | the squares from the king to the checker |
| Engine.GameState.RemoveUnblockingMoves | Chess_Engine/Engine/ChessEngine.py:200-203 | the backward removal loop's result |
| Engine.KingLoopNext | Chess_Engine/Engine/ChessEngine.py:579-598 | one step of GetKingMoves keeps its loop invariant |
| Engine.MadeRecord | Chess_Engine/Engine/ChessEngine.py:55-107 | the three stages of MakeMove together give Make |
| Engine.EndsOnSquare | Chess_Engine/Engine/ChessEngine.py:337-340 | true iff some move ends on the square |
| Engine.BlockSquaresStep | Chess_Engine/Engine/ChessEngine.py:194-198 | the valid squares begin with the next square on the ray and stop at the checker |
| Engine.ValidMovesParts | Chess_Engine/Engine/ChessEngine.py:168-223 | GetValidMoves' three stages assemble to ValidMoves |
| Search.Game.MakeMove | Chess_Engine/Engine/ChessAI.py:70 | the cursor moves down the chosen branch and logs it |
| Search.Game.UndoMove | Chess_Engine/Engine/ChessAI.py:77 | the cursor returns to the parent, or stays at the root |
| Search.Game.GetValidMoves | Chess_Engine/Engine/ChessAI.py:71 | the valid moves of the current position, in list order |
| Search.SeqMax | Chess_Engine/Engine/ChessAI.py:118-128 | the running maximum is at least the floor and bounds every score |
| Search.SeqMaxAttained | Chess_Engine/Engine/ChessAI.py:118-128 | the running maximum is the floor or one of the scores |
| Search.SeqMin | Chess_Engine/Engine/ChessAI.py:80-90 | the running minimum is at most the ceiling and below every score |
| Search.SeqMinIsNegatedMax | Chess_Engine/Engine/ChessAI.py:80-90 | a minimum is the negated maximum of the negated scores |
| Search.Choice | Chess_Engine/Engine/ChessAI.py:123-126 | the recorded index is a child's index |
| Search.ChoiceIsFirstBest | Chess_Engine/Engine/ChessAI.py:123-126 | nothing is recorded iff no score beats -1000; otherwise the recorded move is the first one reaching the best score |
| Search.ChoiceStep | Chess_Engine/Engine/ChessAI.py:123-126 | one more score either strictly improves the maximum and is recorded, or changes nothing |
| Search.NegaScores | Chess_Engine/Engine/ChessAI.py:119-127 | one negated child score per valid move |
| Search.MinMaxScores | Chess_Engine/Engine/ChessAI.py:69-89 | one child score per valid move |
| Search.MinMaxIsNegaMax | Chess_Engine/Engine/ChessAI.py:61-128 | FindMove_MinMax's value is negamax over material, seen from White |
| Search.AlphaBetaWithin | Chess_Engine/Engine/ChessAI.py:147-169 | alpha-beta is fail-soft against negamax: exact inside the window, a bound on the right side outside it |
| Search.LoopStep | Chess_Engine/Engine/ChessAI.py:164-168 | one child keeps the alpha-beta loop invariant |
| Search.AlphaBetaLoopStep | Chess_Engine/Engine/ChessAI.py:155-168 | one turn of the loop: alpha never decreases and bounds the best score |
| Search.AlphaBetaLoopWithin | Chess_Engine/Engine/ChessAI.py:155-169 | the loop's result is fail-soft against the maximum of the negated child scores |
| Search.AlphaBetaLoopAdvance | Chess_Engine/Engine/ChessAI.py:155-168 | after one child, either the loop cuts off with a score beyond beta or the invariant holds for the next child |
| Search.AlphaBetaAgrees | Chess_Engine/Engine/ChessAI.py:147-180 | with the root window (-1000, 1000), alpha-beta returns negamax's score |
| Search.Searcher.constructor | Chess_Engine/Engine/ChessAI.py:3 | `next_move` starts empty |
| Search.Searcher.FindMoveNegaMax | Chess_Engine/Engine/ChessAI.py:112-128 | returns negamax's value, leaves the game where it found it, and records the first best move only at depth DEPTH |
| Search.Searcher.NegaMaxChild | Chess_Engine/Engine/ChessAI.py:120-127 | one child's negated score, with the game restored |
| Search.Searcher.FindBestMoveNegaMax | Chess_Engine/Engine/ChessAI.py:134-141 | the first move reaching negamax's best root score, or none when no move beats -1000 |
| Search.Searcher.FindMoveMinMax | Chess_Engine/Engine/ChessAI.py:61-90 | returns minimax's value, leaves the game where it found it, and records the first strict improvement only at depth DEPTH |
| Search.Searcher.MinMaxChild | Chess_Engine/Engine/ChessAI.py:70-77 | one child's score, with the game restored |
| Search.Searcher.FindBestMoveMinMax | Chess_Engine/Engine/ChessAI.py:96-103 | the move minimax records at the root |
| Search.Searcher.FindMoveAlphaBeta | Chess_Engine/Engine/ChessAI.py:147-169 | returns alpha-beta's value, leaves the game where it found it, and records the root choice only at depth DEPTH |
| Search.Searcher.AlphaBetaChild | Chess_Engine/Engine/ChessAI.py:156-163 | one child's score with the narrowed window, game restored |
| Search.Searcher.FindBestMoveAlphaBeta | Chess_Engine/Engine/ChessAI.py:175-183 | the move alpha-beta records with the root window, which is negamax's choice: the first move reaching the best score, or none |
| Search.ChoiceSettled | Chess_Engine/Engine/ChessAI.py:155-168 | scores that do not beat the running best change neither the best nor the recorded move |
| Search.AlphaBetaRootLoop | Chess_Engine/Engine/ChessAI.py:155-168 | in the root loop alpha is the running best; a child that does not beat it fails low and is not recorded, one that does is searched exactly, so the loop records negamax's choice |
| Search.AlphaBetaChoiceAgrees | Chess_Engine/Engine/ChessAI.py:147-183 | from depth 2 on, the move recorded with the root window (-1000, 1000) is the one negamax records |
| Search.MinMaxOriented | Chess_Engine/Engine/ChessAI.py:64-90 | minimax's value is the running maximum of its scores, turned for the side to move |
| Search.ReplyScores | Chess_Engine/Engine/ChessAI.py:38-49 | one score per opponent reply |
| Search.OpponentScores | Chess_Engine/Engine/ChessAI.py:29-53 | one opponent score per player move |
| Search.WrittenMultiplier | Chess_Engine/Engine/ChessAI.py:25 | the multiplier as written is the negated side sign |
| Search.FindBestMove | Chess_Engine/Engine/ChessAI.py:23-54 | with the corrected multiplier, returns the first move minimising the opponent's best reply score; the game is left where it was |
| Search.OpponentMove | Chess_Engine/Engine/ChessAI.py:30-53 | one player move's opponent score, game restored |
| Search.ReplyAt | Chess_Engine/Engine/ChessAI.py:39-49 | one reply's score, game restored |
| Search.FindBestMoveIsNegaMax | Chess_Engine/Engine/ChessAI.py:23-54 | with the corrected multiplier, FindBestMove chooses what a depth-2 negamax chooses |
| Search.SingleQuietReply | Chess_Engine/Engine/ChessAI.py:36-49 | a single quiet reply is worth its material score |
| Search.WrittenMultiplierMisjudges | Chess_Engine/Engine/ChessAI.py:25-52 | on a two-move position, the multiplier as written picks the move negamax rejects |
| Draft.Made | Chess_Engine/Engine/piece_images/Algo_1.py:1-11 | the move is logged, the turn flips and the moved piece stands on the end square |
| Draft.Undone | Chess_Engine/Engine/piece_images/Algo_1.py:19-29 | with an empty log nothing changes; otherwise the log is popped and the turn flips |
| Draft.MakeUndoRestores | Chess_Engine/Engine/piece_images/Algo_1.py:1-29 | make then undo restores the start and end squares, every other square, the turn, the log and both king locations |
| Draft.MakeUndoRoundTrip | Chess_Engine/Engine/piece_images/Algo_1.py:1-29 | for a move that fits the position, undo takes back make exactly |
| Draft.FittingAgree | Chess_Engine/Engine/piece_images/Algo_1.py:45-52 | moves that fit the position and are equal under `__eq__` are kept or dropped alike |
| Draft.ValidMovesFiltered | Chess_Engine/Engine/piece_images/Algo_1.py:41-52 | the loop keeps, in order, exactly the generated moves that do not expose the king |
| Draft.ValidMovesAreHarmless | Chess_Engine/Engine/piece_images/Algo_1.py:41-52 | a move is valid iff it is generated, on the board, and does not leave the mover's king attacked |
| Draft.GameState.MakeMove | Chess_Engine/Engine/piece_images/Algo_1.py:1-11 | the fields become Made of the old fields |
| Draft.GameState.UndoMove | Chess_Engine/Engine/piece_images/Algo_1.py:19-29 | the fields become Undone of the old fields |
| Draft.GameState.SquareUnderAttack | Chess_Engine/Engine/piece_images/Algo_1.py:83-90 | true iff some opponent move ends on the square; the turn is restored |
| Draft.GameState.InCheck | Chess_Engine/Engine/piece_images/Algo_1.py:69-75 | whether the mover's king is attacked; the turn is restored |
| Draft.GameState.GetValidMoves | Chess_Engine/Engine/piece_images/Algo_1.py:41-61 | the position is unchanged; the result is the order-preserving sub-list of generated moves that do not expose the king; Checkmate or Stalemate is raised by the in-check test when it is empty, both cleared otherwise |
| Draft.GameState.RemoveExposing | Chess_Engine/Engine/piece_images/Algo_1.py:45-52 | the backward loop's result, with the position restored |
| Draft.GameState.TryMove | Chess_Engine/Engine/piece_images/Algo_1.py:46-52 | whether the move exposes the mover's king; the position is restored |

## Left out

- The pygame front end (`ChessMain.py`) and the key-press demo (`testing.py`) are not part of this model.
- `RandomChessMove` and the `random.shuffle` of the move lists before each search: randomness is not modelled. The searches work on the move order they are given.
- The console `print`s of the searches and the global node `counter`: output and an unused statistic.
- `RedoMove` is an empty stub in both files. The commented-out test board and promotion prompt have no behaviour.
- `CastleRights` is an immutable value. In the source, UndoMove makes `CurrentCastlingRights` the same object as the top log entry, and a later `UpdateCastleRights` then changes that log entry in place. The model keeps the log entries as they were pushed, so it does not capture that aliasing.
- `Pieces.Put`: a board write replaces the row in a sequence of rows. The grid is a value here, not a list of Python lists whose rows could be shared.
- Range scans that Python writes as `for i in range(a, b)` are modelled as predicates over the column range (`OccupiedIn`, `SliderIn`, `OtherIn`). The en-passant exposure ranges are kept exactly as written, including the ranges that stop before column 0.
- The pin direction is `()` when a piece is not pinned; the model passes the flag and a direction `(0, 0)`. This changes nothing, because the direction is compared only when the flag is set.
- `list.remove(x)` removes the first element equal to x (`Generation.RemoveFirst`, `Generation.RemoveFirstEqual`), using the `Move.__eq__` of the source for moves.
- `BoardScore` repeats the material loop of `scoreMaterial`; the model reuses `Evaluation.ScoreMaterial` for both.
- Engine.GameState.GetValidMoves and the other generator methods require positions the generators can index without an error: every king on the grid stands where its location says (`KingsAgree`), no pawn stands on its last rank, and castling rights are held only with room for the castle on the king's row (`WellPlaced`, `CastleRoom`). In other positions the Python code raises an index error or indexes from the end of a row; those positions are not modelled.
- Moves.ToString requires a quiet promotion to carry its promotion piece. Without one the Python concatenation raises an error.
- Bookkeeping.Make and Engine.GameState.MakeMove require `Makeable` moves: both squares on the board, a promotion piece for a promotion, and room on the row for a castle's rook hop. Python's negative indices, which would wrap, are not modelled.
- Draft.GameState.UndoMove requires the last logged move to name squares on the board, and Draft.GameState.GetValidMoves requires every generated move to fit the position (its pieces and king locations match the board). GetAllPossibleMoves is not part of the draft, so the draft takes it as a parameter.
- Draft.GameState.GetValidMoves and GenerationFacts.ValidMovesVerdict state the flags as written: with no move left, only the flag chosen by the in-check test (SquareUnderAttack on the king) is raised, and the other keeps its previous value. They are not "exactly when empty" for the flag that is not set.
- The searches work over the tree of positions that MakeMove, GetValidMoves and UndoMove reach, not over the GameState fields. A node records the grid, the side to move and the two end flags that `BoardScore` reads. So the search proofs do not re-check make/undo; that is `Bookkeeping.MakeUndoRoundTrip`'s job.
- Search.Searcher.FindMoveNegaMax, Search.Searcher.FindMoveMinMax and Search.Searcher.FindMoveAlphaBeta require `depth <= DEPTH`. A deeper search would overwrite `next_move` at an inner node of depth DEPTH; the root helpers always start at DEPTH.
- Search.AlphaBetaAgrees excludes depth 1. There the children are leaves scored `turn * BoardScore`. The tree's grids are arbitrary, so a material score can reach 1000 or more, the window's edge. The loop then stops early, while a later move might score higher. `Search.AlphaBetaWithin` states the fail-soft bound that holds at every depth.
- GenerationFacts.SingleCheckFilters and GenerationFacts.ValidMovesSingleCheck rely on moves read off one board: equal moves (under `__eq__`) then end on the same square and move the same piece, so the removal loop cannot drop a kept move in place of an equal one.

## Findings

| source | as written | input that shows it | evidently intended | confidence | as-written member | corrected member |
|---|---|---|---|---|---|---|
| Chess_Engine/Engine/ChessAI.py:25 | `turn_multiplier` is -1 when White is to move, so `-turn_multiplier * scoreMaterial` scores a reply from the player's side, while a checkmate reply scores +1000 for the opponent; the player then minimises its own material | White to move with two moves, each answered by one quiet reply; after the first White is level, after the second a knight up | score replies from the opponent's side (`turn_multiplier` = 1 for White), so the player avoids losing material, as a depth-2 negamax would | not executed | Search.WrittenMultiplierMisjudges | Search.FindBestMoveIsNegaMax |
