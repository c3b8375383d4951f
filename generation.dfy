/** Move generation of the engine, as functions of the position.

    Each function here produces exactly the list the corresponding GameState
    method appends, in the same order. The engine's methods also consume
    entries of the pin list (a pinned piece removes its pin when its moves
    are generated), so every generator that does so returns the pin list it
    leaves behind, and the callers thread it on.
 */
module Generation {
  import opened Pieces
  import opened Moves

  /** The engine's 4-tuples in `pins` and `checks`: a square and a direction
      (for a knight check, the knight's offset) from the king. */
  datatype Line = Line(row: int, col: int, dRow: int, dCol: int)

  /** What move generation reads from the game state besides the pins. */
  datatype Scene = Scene(board: Grid, whiteToMove: bool, whiteKing: Square, blackKing: Square,
                         enPassant: Option<Square>)
  {
    function Ally(): Color { Mover(whiteToMove) }
    function Enemy(): Color { Mover(!whiteToMove) }
    function AllyKing(): Square { if whiteToMove then whiteKing else blackKing }
    /** The same position with the other side to move (SquareUnderAttack). */
    function Flipped(): Scene { this.(whiteToMove := !whiteToMove) }
  }

  /** Positions the generators can index without leaving the board: both
      king locations are squares, and no pawn stands on the rank it promotes
      on (the engine promotes every pawn that reaches it). */
  predicate WellPlaced(sc: Scene) {
    && OnBoard(sc.whiteKing.0, sc.whiteKing.1)
    && OnBoard(sc.blackKing.0, sc.blackKing.1)
    && forall c {:trigger NoPawnOnLastRank(sc.board, c)} :: 0 <= c < 8 ==> NoPawnOnLastRank(sc.board, c)
  }

  /** Column c holds no white pawn on row 0 and no black pawn on row 7. */
  predicate NoPawnOnLastRank(b: Grid, c: int)
    requires 0 <= c < 8
  {
    b[0][c] != Occupied(White, Pawn) && b[7][c] != Occupied(Black, Pawn)
  }

  /** Every king on the grid stands on the square recorded for its colour.
      GetKingMoves puts the king location back on the square it generated
      from, so the recorded locations survive generation only when this holds. */
  ghost predicate KingsAgree(sc: Scene) {
    forall r, c {:trigger KingAgrees(sc, r, c)} :: OnBoard(r, c) ==> KingAgrees(sc, r, c)
  }

  /** Handing the move to the other side keeps the kings where they were. */
  lemma KingsAgreeFlipped(sc: Scene)
    requires KingsAgree(sc)
    ensures KingsAgree(sc.Flipped())
  {
    forall r, c | OnBoard(r, c) ensures KingAgrees(sc.Flipped(), r, c) {
      assert KingAgrees(sc, r, c);
    }
  }

  /** A king on (r, c) is where its colour's location says. */
  predicate KingAgrees(sc: Scene, r: int, c: int)
    requires OnBoard(r, c)
  {
    && (sc.board[r][c] == Occupied(White, King) ==> sc.whiteKing == (r, c))
    && (sc.board[r][c] == Occupied(Black, King) ==> sc.blackKing == (r, c))
  }

  // ---------------------------------------------------------------------
  // Direction tables
  //
  // Every table has eight entries, as the board has eight rows. The loops
  // over a table or along a ray measure their progress against the size of
  // the board: with a bound that depends on the position rather than on a
  // constant, the verifier unfolds such a loop only as far as a proof asks.

  /** Up, Left, Down, Right, then the four diagonals (CheckForPinsAndChecks). */
  const Directions: seq<(int, int)> := [(-1, 0), (0, -1), (1, 0), (0, 1), (-1, -1), (-1, 1), (1, -1), (1, 1)]
  const KnightOffsets: seq<(int, int)> := [(-2, -1), (-1, -2), (-2, 1), (1, -2), (-1, 2), (2, -1), (1, 2), (2, 1)]
  const RookDirections: seq<(int, int)> := [(-1, 0), (1, 0), (0, -1), (0, 1)]
  const BishopDirections: seq<(int, int)> := [(-1, 1), (1, 1), (1, -1), (-1, -1)]
  const QueenDirections: seq<(int, int)> := RookDirections + BishopDirections
  const KingRowMoves: seq<int> := [-1, -1, -1, 0, 0, 1, 1, 1]
  const KingColMoves: seq<int> := [-1, 0, 1, -1, 1, -1, 0, 1]
  const PromotionKinds: seq<Kind> := [Queen, Rook, Bishop, Knight]

  /** The j-th square along direction d from (row, col). */
  function RayPoint(row: int, col: int, d: (int, int), j: int): Square {
    (row + d.0 * j, col + d.1 * j)
  }

  // ---------------------------------------------------------------------
  // CheckForPinsAndChecks

  datatype PinsAndChecks = PinsAndChecks(inCheck: bool, pins: seq<Line>, checks: seq<Line>)

  /** The five cases in which an enemy piece met on ray j at distance i
      attacks the king. */
  predicate CanCheckAlong(j: int, i: int, kind: Kind, enemy: Color) {
    || (0 <= j <= 3 && kind == Rook)
    || (4 <= j <= 7 && kind == Bishop)
    || (i == 1 && kind == Pawn && ((enemy == White && 6 <= j <= 7) || (enemy == Black && 4 <= j <= 5)))
    || kind == Queen
    || (i == 1 && kind == King)
  }

  datatype RayFinding = Clear | PinFound(pin: Line) | CheckFound(check: Line)

  /** What the scan of ray j finds from distance i on, given the allied
      piece already met (possiblePin). An allied king is looked through. */
  function ScanRay(b: Grid, ally: Color, kr: int, kc: int, j: nat, i: nat, possiblePin: Option<Line>): (f: RayFinding)
    requires j < 8 && 1 <= i <= 8
    requires possiblePin.Some? ==> OnBoard(possiblePin.value.row, possiblePin.value.col)
                                   && HasColor(b[possiblePin.value.row][possiblePin.value.col], ally)
                                   && (possiblePin.value.dRow, possiblePin.value.dCol) == Directions[j]
    ensures f.PinFound? ==> OnBoard(f.pin.row, f.pin.col) && HasColor(b[f.pin.row][f.pin.col], ally)
                            && (f.pin.dRow, f.pin.dCol) == Directions[j]
    ensures f.CheckFound? ==> OnBoard(f.check.row, f.check.col) && HasColor(b[f.check.row][f.check.col], ally.Opponent())
                              && b[f.check.row][f.check.col].kind != Knight
                              && (f.check.dRow, f.check.dCol) == Directions[j]
                              && exists k :: i <= k < 8 && (f.check.row, f.check.col) == RayPoint(kr, kc, Directions[j], k)
    ensures possiblePin.Some? && f.PinFound? ==> f.pin == possiblePin.value
    ensures possiblePin.Some? ==> !f.CheckFound?
    decreases |b| - i
  {
    if i == 8 then Clear
    else
      var d := Directions[j];
      var (r, c) := RayPoint(kr, kc, d, i);
      if !OnBoard(r, c) then Clear
      else
        var p := b[r][c];
        if HasColor(p, ally) && p.kind != King then
          if possiblePin.None? then ScanRay(b, ally, kr, kc, j, i + 1, Some(Line(r, c, d.0, d.1))) else Clear
        else if HasColor(p, ally.Opponent()) then
          if CanCheckAlong(j, i, p.kind, ally.Opponent()) then
            if possiblePin.None? then CheckFound(Line(r, c, d.0, d.1)) else PinFound(possiblePin.value)
          else Clear
        else ScanRay(b, ally, kr, kc, j, i + 1, possiblePin)
  }

  // What a check and a pin are, stated on the board alone: the scan's own
  // functions do not appear in these definitions.

  /** A square the ray from the king passes: on the board and empty or
      holding the allied king (the king is looked through, so that a king
      stepping along a line it is checked on stays in check). */
  predicate PassableAt(b: Grid, ally: Color, sq: Square) {
    OnBoard(sq.0, sq.1) && (b[sq.0][sq.1] == Empty || b[sq.0][sq.1] == Occupied(ally, King))
  }

  /** The squares lo..hi-1 along d from (kr, kc) are all passable. */
  ghost predicate ClearAlong(b: Grid, ally: Color, kr: int, kc: int, d: (int, int), lo: int, hi: int) {
    forall m :: lo <= m < hi ==> PassableAt(b, ally, RayPoint(kr, kc, d, m))
  }

  /** An enemy piece stands k squares along ray j and can give check along
      that ray from that distance. */
  ghost predicate CheckerAt(b: Grid, ally: Color, kr: int, kc: int, j: int, k: int)
    requires 0 <= j < 8
  {
    var sq := RayPoint(kr, kc, Directions[j], k);
    && OnBoard(sq.0, sq.1)
    && HasColor(b[sq.0][sq.1], ally.Opponent())
    && CanCheckAlong(j, k, b[sq.0][sq.1].kind, ally.Opponent())
  }

  /** The enemy piece k squares along ray j attacks (kr, kc): it can check
      along the ray and every square between is passable. */
  ghost predicate RayAttack(b: Grid, ally: Color, kr: int, kc: int, j: int, k: int) {
    0 <= j < 8 && 1 <= k < 8 && CheckerAt(b, ally, kr, kc, j, k) && ClearAlong(b, ally, kr, kc, Directions[j], 1, k)
  }

  /** An enemy knight stands on the i-th knight square of (kr, kc). */
  ghost predicate KnightAttack(b: Grid, ally: Color, kr: int, kc: int, i: int) {
    && 0 <= i < 8
    && OnBoard(kr + KnightOffsets[i].0, kc + KnightOffsets[i].1)
    && b[kr + KnightOffsets[i].0][kc + KnightOffsets[i].1] == Occupied(ally.Opponent(), Knight)
  }

  /** A king of the side to move on (kr, kc) is attacked: along a clear ray
      by a piece that can check along it, or by a knight. */
  ghost predicate Threatened(b: Grid, whiteToMove: bool, kr: int, kc: int) {
    || (exists j, k :: RayAttack(b, Mover(whiteToMove), kr, kc, j, k))
    || (exists i :: KnightAttack(b, Mover(whiteToMove), kr, kc, i))
  }

  /** The allied non-king k squares along ray j shields the king from a
      piece further along: the squares before it are passable, and an enemy
      piece k' > k squares along can check along the ray over passable
      squares from it. */
  ghost predicate Shields(b: Grid, ally: Color, kr: int, kc: int, j: int, k: int) {
    && 0 <= j < 8 && 1 <= k < 8
    && var sq := RayPoint(kr, kc, Directions[j], k);
    && OnBoard(sq.0, sq.1) && HasColor(b[sq.0][sq.1], ally) && b[sq.0][sq.1].kind != King
    && ClearAlong(b, ally, kr, kc, Directions[j], 1, k)
    && exists k' :: k < k' < 8 && CheckerAt(b, ally, kr, kc, j, k') && ClearAlong(b, ally, kr, kc, Directions[j], k + 1, k')
  }

  /** The facts every recorded pin and check carries. */
  ghost predicate PinsCheck(b: Grid, ally: Color, kr: int, kc: int, found: PinsAndChecks) {
    && (forall p :: p in found.pins ==> PinLine(b, ally, kr, kc, p))
    && (forall c :: c in found.checks ==> CheckLine(b, ally, kr, kc, c))
    && (found.inCheck <==> |found.checks| > 0)
  }

  /** A recorded pin: an allied piece on one of the eight rays from the king
      that shields it, with the ray's direction. */
  ghost predicate PinLine(b: Grid, ally: Color, kr: int, kc: int, p: Line) {
    exists j, k :: Shields(b, ally, kr, kc, j, k) && Directions[j] == (p.dRow, p.dCol)
                   && (p.row, p.col) == RayPoint(kr, kc, Directions[j], k)
  }

  /** A recorded check: an enemy knight a knight's jump away, or an enemy
      piece that attacks the king along one of the eight rays. */
  ghost predicate CheckLine(b: Grid, ally: Color, kr: int, kc: int, c: Line) {
    && OnBoard(c.row, c.col)
    && HasColor(b[c.row][c.col], ally.Opponent())
    && if b[c.row][c.col].kind == Knight then
         (c.dRow, c.dCol) in KnightOffsets && (c.row, c.col) == (kr + c.dRow, kc + c.dCol)
       else
         exists j, k :: RayAttack(b, ally, kr, kc, j, k) && Directions[j] == (c.dRow, c.dCol)
                        && (c.row, c.col) == RayPoint(kr, kc, Directions[j], k)
  }

  /** What the scan of a ray finds, in terms of the board: a check is an
      attacking piece over passable squares; a pin found with an allied
      piece already met is that piece, with an attacker behind it; a pin
      found from scratch is an allied piece over passable squares with an
      attacker behind it. */
  lemma {:induction false} ScanRayFinds(b: Grid, ally: Color, kr: int, kc: int, j: nat, i: nat, possiblePin: Option<Line>)
    requires j < 8 && 1 <= i <= 8
    requires possiblePin.Some? ==> OnBoard(possiblePin.value.row, possiblePin.value.col)
                                   && HasColor(b[possiblePin.value.row][possiblePin.value.col], ally)
                                   && (possiblePin.value.dRow, possiblePin.value.dCol) == Directions[j]
    ensures var f := ScanRay(b, ally, kr, kc, j, i, possiblePin);
            && (f.CheckFound? ==> exists k :: i <= k < 8 && (f.check.row, f.check.col) == RayPoint(kr, kc, Directions[j], k)
                                             && CheckerAt(b, ally, kr, kc, j, k) && ClearAlong(b, ally, kr, kc, Directions[j], i, k))
            && (f.PinFound? && possiblePin.Some? ==>
                  exists k :: i <= k < 8 && CheckerAt(b, ally, kr, kc, j, k) && ClearAlong(b, ally, kr, kc, Directions[j], i, k))
            && (f.PinFound? && possiblePin.None? ==>
                  exists k :: i <= k < 8 && (f.pin.row, f.pin.col) == RayPoint(kr, kc, Directions[j], k)
                              && b[f.pin.row][f.pin.col].kind != King
                              && ClearAlong(b, ally, kr, kc, Directions[j], i, k)
                              && exists k' :: k < k' < 8 && CheckerAt(b, ally, kr, kc, j, k')
                                              && ClearAlong(b, ally, kr, kc, Directions[j], k + 1, k'))
    decreases 8 - i
  {
    if i < 8 {
      var d := Directions[j];
      var (r, c) := RayPoint(kr, kc, d, i);
      if OnBoard(r, c) {
        var p := b[r][c];
        if HasColor(p, ally) && p.kind != King {
          if possiblePin.None? {
            var pin := Some(Line(r, c, d.0, d.1));
            ScanRayFinds(b, ally, kr, kc, j, i + 1, pin);
            var f := ScanRay(b, ally, kr, kc, j, i + 1, pin);
            if f.PinFound? {
              var k' :| i + 1 <= k' < 8 && CheckerAt(b, ally, kr, kc, j, k') && ClearAlong(b, ally, kr, kc, d, i + 1, k');
              assert (f.pin.row, f.pin.col) == RayPoint(kr, kc, d, i);
              assert ClearAlong(b, ally, kr, kc, d, i, i);
            }
          }
        } else if HasColor(p, ally.Opponent()) {
          assert ClearAlong(b, ally, kr, kc, d, i, i);
          assert CheckerAt(b, ally, kr, kc, j, i) <==> CanCheckAlong(j, i, p.kind, ally.Opponent());
        } else {
          ScanRayFinds(b, ally, kr, kc, j, i + 1, possiblePin);
          assert PassableAt(b, ally, RayPoint(kr, kc, d, i));
          var f := ScanRay(b, ally, kr, kc, j, i + 1, possiblePin);
          if f.CheckFound? {
            var k :| i + 1 <= k < 8 && (f.check.row, f.check.col) == RayPoint(kr, kc, d, k)
                     && CheckerAt(b, ally, kr, kc, j, k) && ClearAlong(b, ally, kr, kc, d, i + 1, k);
            ClearAlongExtend(b, ally, kr, kc, d, i, k);
          } else if f.PinFound? && possiblePin.Some? {
            var k :| i + 1 <= k < 8 && CheckerAt(b, ally, kr, kc, j, k) && ClearAlong(b, ally, kr, kc, d, i + 1, k);
            ClearAlongExtend(b, ally, kr, kc, d, i, k);
          } else if f.PinFound? {
            var k :| i + 1 <= k < 8 && (f.pin.row, f.pin.col) == RayPoint(kr, kc, d, k)
                     && b[f.pin.row][f.pin.col].kind != King
                     && ClearAlong(b, ally, kr, kc, d, i + 1, k)
                     && exists k' :: k < k' < 8 && CheckerAt(b, ally, kr, kc, j, k')
                                     && ClearAlong(b, ally, kr, kc, d, k + 1, k');
            ClearAlongExtend(b, ally, kr, kc, d, i, k);
          }
        }
      }
    }
  }

  /** A passable square in front of a clear stretch extends it. */
  lemma ClearAlongExtend(b: Grid, ally: Color, kr: int, kc: int, d: (int, int), i: int, k: int)
    requires PassableAt(b, ally, RayPoint(kr, kc, d, i)) && ClearAlong(b, ally, kr, kc, d, i + 1, k)
    ensures ClearAlong(b, ally, kr, kc, d, i, k)
  {
    forall m | i <= m < k ensures PassableAt(b, ally, RayPoint(kr, kc, d, m)) {
      if m != i {
        assert i + 1 <= m < k;
      }
    }
  }

  /** Conversely, with no allied piece met yet, an attacker over passable
      squares from distance i on is found, on its own square. */
  lemma {:induction false} ScanRayMeets(b: Grid, ally: Color, kr: int, kc: int, j: nat, i: nat, k: nat)
    requires j < 8 && 1 <= i <= k < 8
    requires CheckerAt(b, ally, kr, kc, j, k) && ClearAlong(b, ally, kr, kc, Directions[j], i, k)
    ensures var f := ScanRay(b, ally, kr, kc, j, i, None);
            f.CheckFound? && (f.check.row, f.check.col) == RayPoint(kr, kc, Directions[j], k)
    decreases k - i
  {
    if i < k {
      assert PassableAt(b, ally, RayPoint(kr, kc, Directions[j], i));
      assert ClearAlong(b, ally, kr, kc, Directions[j], i + 1, k);
      ScanRayMeets(b, ally, kr, kc, j, i + 1, k);
    }
  }

  /** The loop over the eight directions. */
  function ScanDirections(b: Grid, ally: Color, kr: int, kc: int, j: nat, acc: PinsAndChecks): (found: PinsAndChecks)
    requires j <= 8
    decreases |b| - j
  {
    if j == 8 then acc
    else ScanDirections(b, ally, kr, kc, j + 1, DirectionStep(b, ally, kr, kc, j, acc))
  }

  /** What the scan of direction j adds: a pin, or a check and the flag. */
  function DirectionStep(b: Grid, ally: Color, kr: int, kc: int, j: nat, acc: PinsAndChecks): PinsAndChecks
    requires j < 8
  {
    match ScanRay(b, ally, kr, kc, j, 1, None)
    case Clear => acc
    case PinFound(p) => acc.(pins := acc.pins + [p])
    case CheckFound(c) => PinsAndChecks(true, acc.pins, acc.checks + [c])
  }

  /** The loop over the eight knight squares. */
  function KnightChecks(b: Grid, ally: Color, kr: int, kc: int, k: nat, acc: PinsAndChecks): (found: PinsAndChecks)
    requires k <= 8
    ensures found.pins == acc.pins
    decreases |b| - k
  {
    if k == 8 then acc
    else KnightChecks(b, ally, kr, kc, k + 1, KnightStep(b, ally, kr, kc, k, acc))
  }

  /** What knight square k adds: a check and the flag for an enemy knight. */
  function KnightStep(b: Grid, ally: Color, kr: int, kc: int, k: nat, acc: PinsAndChecks): (acc': PinsAndChecks)
    requires k < 8
    ensures acc'.pins == acc.pins
  {
    var (r, c) := (kr + KnightOffsets[k].0, kc + KnightOffsets[k].1);
    if OnBoard(r, c) && b[r][c] == Occupied(ally.Opponent(), Knight) then
      PinsAndChecks(true, acc.pins, acc.checks + [Line(r, c, KnightOffsets[k].0, KnightOffsets[k].1)])
    else acc
  }

  /** CheckForPinsAndChecks with the mover's king taken to stand on (kr, kc). */
  function PinsAndChecksAt(b: Grid, whiteToMove: bool, kr: int, kc: int): (found: PinsAndChecks)
  {
    var ally := Mover(whiteToMove);
    KnightChecks(b, ally, kr, kc, 0, ScanDirections(b, ally, kr, kc, 0, PinsAndChecks(false, [], [])))
  }

  /** The direction loop only records pins on allied pieces and checks
      from enemy pieces on a ray from the king, and sets the flag with the
      first check. */
  lemma {:induction false} ScanDirectionsSound(b: Grid, ally: Color, kr: int, kc: int, j: nat, acc: PinsAndChecks)
    requires j <= 8 && PinsCheck(b, ally, kr, kc, acc)
    ensures PinsCheck(b, ally, kr, kc, ScanDirections(b, ally, kr, kc, j, acc))
    decreases 8 - j
  {
    if j < 8 {
      DirectionStepSound(b, ally, kr, kc, j, acc);
      ScanDirectionsSound(b, ally, kr, kc, j + 1, DirectionStep(b, ally, kr, kc, j, acc));
    }
  }

  lemma DirectionStepSound(b: Grid, ally: Color, kr: int, kc: int, j: nat, acc: PinsAndChecks)
    requires j < 8 && PinsCheck(b, ally, kr, kc, acc)
    ensures PinsCheck(b, ally, kr, kc, DirectionStep(b, ally, kr, kc, j, acc))
  {
    ScanRayFinds(b, ally, kr, kc, j, 1, None);
    match ScanRay(b, ally, kr, kc, j, 1, None)
    case Clear =>
    case PinFound(p) =>
      var k :| 1 <= k < 8 && (p.row, p.col) == RayPoint(kr, kc, Directions[j], k)
               && b[p.row][p.col].kind != King
               && ClearAlong(b, ally, kr, kc, Directions[j], 1, k)
               && exists k' :: k < k' < 8 && CheckerAt(b, ally, kr, kc, j, k')
                               && ClearAlong(b, ally, kr, kc, Directions[j], k + 1, k');
      assert Shields(b, ally, kr, kc, j, k);
      assert PinLine(b, ally, kr, kc, p);
    case CheckFound(c) =>
      var k :| 1 <= k < 8 && (c.row, c.col) == RayPoint(kr, kc, Directions[j], k)
               && CheckerAt(b, ally, kr, kc, j, k) && ClearAlong(b, ally, kr, kc, Directions[j], 1, k);
      assert RayAttack(b, ally, kr, kc, j, k);
      assert CheckLine(b, ally, kr, kc, c);
      AddCheck(b, ally, kr, kc, acc, c);
  }

  /** The knight loop only records checks from enemy knights a knight's
      jump from the king. */
  lemma {:induction false} KnightChecksSound(b: Grid, ally: Color, kr: int, kc: int, k: nat, acc: PinsAndChecks)
    requires k <= 8 && PinsCheck(b, ally, kr, kc, acc)
    ensures PinsCheck(b, ally, kr, kc, KnightChecks(b, ally, kr, kc, k, acc))
    decreases 8 - k
  {
    if k < 8 {
      KnightStepSound(b, ally, kr, kc, k, acc);
      KnightChecksSound(b, ally, kr, kc, k + 1, KnightStep(b, ally, kr, kc, k, acc));
    }
  }

  lemma KnightStepSound(b: Grid, ally: Color, kr: int, kc: int, k: nat, acc: PinsAndChecks)
    requires k < 8 && PinsCheck(b, ally, kr, kc, acc)
    ensures PinsCheck(b, ally, kr, kc, KnightStep(b, ally, kr, kc, k, acc))
  {
    var (r, c) := (kr + KnightOffsets[k].0, kc + KnightOffsets[k].1);
    if OnBoard(r, c) && b[r][c] == Occupied(ally.Opponent(), Knight) {
      var line := Line(r, c, KnightOffsets[k].0, KnightOffsets[k].1);
      assert CheckLine(b, ally, kr, kc, line) by {
        assert (line.dRow, line.dCol) == KnightOffsets[k];
      }
      AddCheck(b, ally, kr, kc, acc, line);
    }
  }

  /** Recording one more check keeps the facts of PinsCheck. */
  lemma AddCheck(b: Grid, ally: Color, kr: int, kc: int, acc: PinsAndChecks, c: Line)
    requires PinsCheck(b, ally, kr, kc, acc) && CheckLine(b, ally, kr, kc, c)
    ensures PinsCheck(b, ally, kr, kc, PinsAndChecks(true, acc.pins, acc.checks + [c]))
  {
  }

  /** CheckForPinsAndChecks: every pin is an allied non-king on one of the
      eight rays that shields the king from an enemy piece able to check
      along that ray; every check is an enemy knight a jump away or an enemy
      piece attacking the king along a clear ray; and the in-check flag is
      set exactly when a check was found. */
  lemma PinsAndChecksSound(b: Grid, whiteToMove: bool, kr: int, kc: int)
    ensures PinsCheck(b, Mover(whiteToMove), kr, kc, PinsAndChecksAt(b, whiteToMove, kr, kc))
  {
    var ally := Mover(whiteToMove);
    var empty := PinsAndChecks(false, [], []);
    ScanDirectionsSound(b, ally, kr, kc, 0, empty);
    KnightChecksSound(b, ally, kr, kc, 0, ScanDirections(b, ally, kr, kc, 0, empty));
  }

  /** Some ray from direction j on ends in a check. */
  predicate RayCheckFrom(b: Grid, ally: Color, kr: int, kc: int, j: nat)
    requires j <= 8
    decreases 8 - j
  {
    j < 8 && (RayChecks(b, ally, kr, kc, j) || RayCheckFrom(b, ally, kr, kc, j + 1))
  }

  /** Some knight square from index k on holds an enemy knight. */
  predicate KnightCheckFrom(b: Grid, ally: Color, kr: int, kc: int, k: nat)
    requires k <= 8
    decreases 8 - k
  {
    k < 8 && ((OnBoard(kr + KnightOffsets[k].0, kc + KnightOffsets[k].1)
               && b[kr + KnightOffsets[k].0][kc + KnightOffsets[k].1] == Occupied(ally.Opponent(), Knight))
              || KnightCheckFrom(b, ally, kr, kc, k + 1))
  }

  /** A king of the side to move standing on (kr, kc) would be in check, as
      the scan decides it (AttackedIsThreatened states it on the board). */
  predicate Attacked(b: Grid, whiteToMove: bool, kr: int, kc: int) {
    RayCheckFrom(b, Mover(whiteToMove), kr, kc, 0) || KnightCheckFrom(b, Mover(whiteToMove), kr, kc, 0)
  }

  /** RayCheckFrom is "some ray from j on scans to a check". */
  lemma {:induction false} RayCheckFromSome(b: Grid, ally: Color, kr: int, kc: int, j: nat)
    requires j <= 8
    ensures RayCheckFrom(b, ally, kr, kc, j) <==> exists j' :: j <= j' < 8 && RayChecks(b, ally, kr, kc, j')
    decreases 8 - j
  {
    if j < 8 {
      RayCheckFromSome(b, ally, kr, kc, j + 1);
      assert RayCheckFrom(b, ally, kr, kc, j) <==> RayChecks(b, ally, kr, kc, j) || RayCheckFrom(b, ally, kr, kc, j + 1);
      if RayChecks(b, ally, kr, kc, j) {
        assert j <= j < 8;
      } else if exists j' :: j <= j' < 8 && RayChecks(b, ally, kr, kc, j') {
        var j' :| j <= j' < 8 && RayChecks(b, ally, kr, kc, j');
        assert j + 1 <= j' < 8;
      }
    }
  }

  /** The scan of ray j from the king ends in a check. */
  predicate RayChecks(b: Grid, ally: Color, kr: int, kc: int, j: nat)
    requires j < 8
  {
    ScanRay(b, ally, kr, kc, j, 1, None).CheckFound?
  }

  /** KnightCheckFrom is "some knight square from k on holds an enemy knight". */
  lemma {:induction false} KnightCheckFromSome(b: Grid, ally: Color, kr: int, kc: int, k: nat)
    requires k <= 8
    ensures KnightCheckFrom(b, ally, kr, kc, k) <==> exists i :: k <= i && KnightAttack(b, ally, kr, kc, i)
    decreases 8 - k
  {
    if k < 8 {
      KnightCheckFromSome(b, ally, kr, kc, k + 1);
      if KnightAttack(b, ally, kr, kc, k) {
        assert k <= k;
      } else if exists i :: k <= i && KnightAttack(b, ally, kr, kc, i) {
        var i :| k <= i && KnightAttack(b, ally, kr, kc, i);
        assert k + 1 <= i;
      }
    }
  }

  /** The scan's notion of attack is the board's: Attacked holds exactly
      when an enemy piece attacks the square along a clear ray or an enemy
      knight is a jump away. */
  lemma AttackedIsThreatened(b: Grid, whiteToMove: bool, kr: int, kc: int)
    ensures Attacked(b, whiteToMove, kr, kc) <==> Threatened(b, whiteToMove, kr, kc)
  {
    var ally := Mover(whiteToMove);
    RayCheckFromSome(b, ally, kr, kc, 0);
    KnightCheckFromSome(b, ally, kr, kc, 0);
    if RayCheckFrom(b, ally, kr, kc, 0) {
      var j :| 0 <= j < 8 && RayChecks(b, ally, kr, kc, j);
      ScanRayFinds(b, ally, kr, kc, j, 1, None);
      var k :| 1 <= k < 8 && CheckerAt(b, ally, kr, kc, j, k) && ClearAlong(b, ally, kr, kc, Directions[j], 1, k);
      assert RayAttack(b, ally, kr, kc, j, k);
    }
    if exists j, k :: RayAttack(b, ally, kr, kc, j, k) {
      var j, k :| RayAttack(b, ally, kr, kc, j, k);
      ScanRayMeets(b, ally, kr, kc, j, 1, k);
    }
  }

  lemma {:induction false} ScanDirectionsFlag(b: Grid, ally: Color, kr: int, kc: int, j: nat, acc: PinsAndChecks)
    requires j <= 8
    ensures ScanDirections(b, ally, kr, kc, j, acc).inCheck == (acc.inCheck || RayCheckFrom(b, ally, kr, kc, j))
    decreases 8 - j
  {
    if j < 8 {
      ScanDirectionsFlag(b, ally, kr, kc, j + 1, DirectionStep(b, ally, kr, kc, j, acc));
    }
  }

  lemma {:induction false} KnightChecksFlag(b: Grid, ally: Color, kr: int, kc: int, k: nat, acc: PinsAndChecks)
    requires k <= 8
    ensures KnightChecks(b, ally, kr, kc, k, acc).inCheck == (acc.inCheck || KnightCheckFrom(b, ally, kr, kc, k))
    decreases 8 - k
  {
    if k < 8 {
      KnightChecksFlag(b, ally, kr, kc, k + 1, KnightStep(b, ally, kr, kc, k, acc));
    }
  }

  /** CheckForPinsAndChecks reports a check exactly when the king's square
      is attacked, along a clear ray or by a knight. */
  lemma InCheckFlag(b: Grid, whiteToMove: bool, kr: int, kc: int)
    ensures PinsAndChecksAt(b, whiteToMove, kr, kc).inCheck == Attacked(b, whiteToMove, kr, kc)
    ensures PinsAndChecksAt(b, whiteToMove, kr, kc).inCheck == Threatened(b, whiteToMove, kr, kc)
  {
    AttackedIsThreatened(b, whiteToMove, kr, kc);
    var ally := Mover(whiteToMove);
    var empty := PinsAndChecks(false, [], []);
    ScanDirectionsFlag(b, ally, kr, kc, 0, empty);
    KnightChecksFlag(b, ally, kr, kc, 0, ScanDirections(b, ally, kr, kc, 0, empty));
  }

  // ---------------------------------------------------------------------
  // Pins as the piece generators look them up

  /** The last pin entry before index i that names (row, col). */
  function PinIndex(pins: seq<Line>, row: int, col: int, i: nat): (k: Option<nat>)
    requires i <= |pins|
    ensures k.Some? ==> k.value < i && pins[k.value].row == row && pins[k.value].col == col
    ensures k.Some? ==> forall j :: k.value < j < i ==> !(pins[j].row == row && pins[j].col == col)
    ensures k.None? ==> forall j :: 0 <= j < i ==> !(pins[j].row == row && pins[j].col == col)
    decreases i
  {
    if i == 0 then None
    else if pins[i - 1].row == row && pins[i - 1].col == col then Some(i - 1)
    else PinIndex(pins, row, col, i - 1)
  }

  /** list.remove(x): drop the first element equal to x. */
  function RemoveFirst<T(==)>(s: seq<T>, x: T): (r: seq<T>)
    ensures x in s ==> |r| == |s| - 1 && multiset(r) == multiset(s) - multiset{x}
    ensures x !in s ==> r == s
  {
    if s == [] then []
    else
      assert s == [s[0]] + s[1..];
      if s[0] == x then s[1..] else [s[0]] + RemoveFirst(s[1..], x)
  }

  datatype PinLookup = PinLookup(pinned: bool, dir: (int, int), pins: seq<Line>)

  /** The pin search at the head of each piece generator: the last pin on
      (row, col), and the pin list with that entry removed when `remove`. */
  function TakePin(pins: seq<Line>, row: int, col: int, remove: bool): (look: PinLookup)
    ensures look.pinned <==> exists j :: 0 <= j < |pins| && pins[j].row == row && pins[j].col == col
    ensures look.pinned && remove ==> |look.pins| == |pins| - 1
    ensures !look.pinned || !remove ==> look.pins == pins
  {
    match PinIndex(pins, row, col, |pins|)
    case None => PinLookup(false, (0, 0), pins)
    case Some(k) => PinLookup(true, (pins[k].dRow, pins[k].dCol), if remove then RemoveFirst(pins, pins[k]) else pins)
  }

  /** `not piecePinned or pinDirection == d or pinDirection == -d` */
  predicate AlongPin(pinned: bool, pinDir: (int, int), d: (int, int)) {
    !pinned || pinDir == d || pinDir == (-d.0, -d.1)
  }

  // ---------------------------------------------------------------------
  // Sliding pieces

  /** One ray of a rook, bishop or queen, from distance i on. An off-board
      step does not stop the scan; a step in a direction the pin forbids, a
      capture, or an allied piece does. */
  function RayMoves(sc: Scene, row: int, col: int, d: (int, int), pinned: bool, pinDir: (int, int), i: nat): seq<Move>
    requires OnBoard(row, col) && 1 <= i <= 8
    decreases |sc.board| - i
  {
    if i == 8 then []
    else
      var (r, c) := RayPoint(row, col, d, i);
      if OnBoard(r, c) then
        if AlongPin(pinned, pinDir, d) then
          var p := sc.board[r][c];
          if p == Empty then [NewMove((row, col), (r, c), sc.board, false, false, None)] + RayMoves(sc, row, col, d, pinned, pinDir, i + 1)
          else if HasColor(p, sc.Enemy()) then [NewMove((row, col), (r, c), sc.board, false, false, None)]
          else []
        else []
      else RayMoves(sc, row, col, d, pinned, pinDir, i + 1)
  }

  function SliderMoves(sc: Scene, row: int, col: int, dirs: seq<(int, int)>, pinned: bool, pinDir: (int, int)): seq<Move>
    requires OnBoard(row, col)
    decreases |dirs|
  {
    if dirs == [] then []
    else RayMoves(sc, row, col, dirs[0], pinned, pinDir, 1) + SliderMoves(sc, row, col, dirs[1..], pinned, pinDir)
  }

  /** GetRookMoves keeps the pin when the piece on the square is a queen. */
  function RookMoves(sc: Scene, pins: seq<Line>, row: int, col: int): (seq<Move>, seq<Line>)
    requires OnBoard(row, col)
  {
    var look := TakePin(pins, row, col, PieceLetter(sc.board[row][col]) != 'Q');
    (SliderMoves(sc, row, col, RookDirections, look.pinned, look.dir), look.pins)
  }

  function BishopMoves(sc: Scene, pins: seq<Line>, row: int, col: int): (seq<Move>, seq<Line>)
    requires OnBoard(row, col)
  {
    var look := TakePin(pins, row, col, true);
    (SliderMoves(sc, row, col, BishopDirections, look.pinned, look.dir), look.pins)
  }

  function QueenMoves(sc: Scene, pins: seq<Line>, row: int, col: int): (seq<Move>, seq<Line>)
    requires OnBoard(row, col)
  {
    var look := TakePin(pins, row, col, true);
    (SliderMoves(sc, row, col, QueenDirections, look.pinned, look.dir), look.pins)
  }

  // ---------------------------------------------------------------------
  // Knights and kings

  /** The move of jump k, if the jump lands on the board, the knight is not
      pinned, and the target holds no allied piece. */
  function KnightJump(sc: Scene, row: int, col: int, pinned: bool, k: nat): seq<Move>
    requires OnBoard(row, col) && k < 8
  {
    var (r, c) := (row + KnightOffsets[k].0, col + KnightOffsets[k].1);
    if OnBoard(r, c) && !pinned && !HasColor(sc.board[r][c], sc.Ally())
    then [NewMove((row, col), (r, c), sc.board, false, false, None)] else []
  }

  function KnightJumps(sc: Scene, row: int, col: int, pinned: bool, k: nat): seq<Move>
    requires OnBoard(row, col) && k <= 8
    decreases |sc.board| - k
  {
    if k == 8 then [] else KnightJump(sc, row, col, pinned, k) + KnightJumps(sc, row, col, pinned, k + 1)
  }

  function KnightMoves(sc: Scene, pins: seq<Line>, row: int, col: int): (seq<Move>, seq<Line>)
    requires OnBoard(row, col)
  {
    var look := TakePin(pins, row, col, true);
    (KnightJumps(sc, row, col, look.pinned, 0), look.pins)
  }

  /** The move of king step k, if the step lands on the board, the target
      holds no allied piece, and CheckForPinsAndChecks, run with the king
      moved to the target, finds no check. */
  function KingStep(sc: Scene, row: int, col: int, k: nat): seq<Move>
    requires OnBoard(row, col) && k < 8
  {
    var (r, c) := (row + KingRowMoves[k], col + KingColMoves[k]);
    if OnBoard(r, c) && !HasColor(sc.board[r][c], sc.Ally()) && !Attacked(sc.board, sc.whiteToMove, r, c)
    then [NewMove((row, col), (r, c), sc.board, false, false, None)] else []
  }

  function KingSteps(sc: Scene, row: int, col: int, k: nat): seq<Move>
    requires OnBoard(row, col) && k <= 8
    decreases |sc.board| - k
  {
    if k == 8 then [] else KingStep(sc, row, col, k) + KingSteps(sc, row, col, k + 1)
  }

  function KingMoves(sc: Scene, row: int, col: int): seq<Move>
    requires OnBoard(row, col)
  {
    KingSteps(sc, row, col, 0)
  }

  /** GetKingMoves moves the king location for king step k when the step
      lands on the board on a square not held by an allied piece. */
  predicate KingProbe(sc: Scene, row: int, col: int, k: nat)
    requires k < 8
  {
    OnBoard(row + KingRowMoves[k], col + KingColMoves[k])
    && !HasColor(sc.board[row + KingRowMoves[k]][col + KingColMoves[k]], sc.Ally())
  }

  /** Whether one of the first n king steps is probed (GetKingMoves puts the
      king location back on the square it generates from after each). */
  predicate KingProbes(sc: Scene, row: int, col: int, n: nat)
    requires n <= 8
  {
    exists k :: 0 <= k < n && KingProbe(sc, row, col, k)
  }

  /** A king step depends on the board and the side to move only, not on
      the recorded king locations. */
  lemma KingStepSameBoard(sc1: Scene, sc2: Scene, row: int, col: int, k: nat)
    requires OnBoard(row, col) && k < 8
    requires sc1.board == sc2.board && sc1.whiteToMove == sc2.whiteToMove
    ensures KingStep(sc1, row, col, k) == KingStep(sc2, row, col, k)
    ensures KingProbe(sc1, row, col, k) == KingProbe(sc2, row, col, k)
  {
  }

  /** Probing one more king step extends KingProbes by that step. */
  lemma KingProbesNext(sc: Scene, row: int, col: int, k: nat)
    requires k < 8
    ensures KingProbes(sc, row, col, k + 1) <==> KingProbes(sc, row, col, k) || KingProbe(sc, row, col, k)
  {
    if KingProbes(sc, row, col, k + 1) {
      var j :| 0 <= j < k + 1 && KingProbe(sc, row, col, j);
      if j < k {
        assert KingProbes(sc, row, col, k);
      }
    }
  }

  // ---------------------------------------------------------------------
  // Pawns

  function Forward(whiteToMove: bool): int { if whiteToMove then -1 else 1 }
  function PawnStartRow(whiteToMove: bool): int { if whiteToMove then 6 else 1 }
  predicate LastRow(whiteToMove: bool, r: int) { (whiteToMove && r == 0) || (!whiteToMove && r == 7) }

  /** One move per promotion piece, in the order Q, R, B, N. */
  function PromotionMoves(b: Grid, from: Square, to: Square): (ms: seq<Move>)
    requires OnBoard(from.0, from.1) && OnBoard(to.0, to.1)
    ensures |ms| == 4
    ensures forall k :: 0 <= k < 4 ==> ms[k] == NewMove(from, to, b, false, false, Some(PromotionKinds[k]))
  {
    seq(4, k requires 0 <= k < 4 => NewMove(from, to, b, false, false, Some(PromotionKinds[k])))
  }

  /** A pawn move that does not capture: one step, and two from the start row. */
  function PawnAdvances(sc: Scene, row: int, col: int, pinned: bool, pinDir: (int, int)): seq<Move>
    requires OnBoard(row, col) && OnBoard(row + Forward(sc.whiteToMove), col)
  {
    var amount := Forward(sc.whiteToMove);
    var b := sc.board;
    var r := row + amount;
    if b[r][col] == Empty && (!pinned || pinDir == (amount, 0)) then
      (if LastRow(sc.whiteToMove, r) then PromotionMoves(b, (row, col), (r, col))
       else [NewMove((row, col), (r, col), b, false, false, None)])
      + (if row == PawnStartRow(sc.whiteToMove) && b[row + 2 * amount][col] == Empty
         then [NewMove((row, col), (row + 2 * amount, col), b, false, false, None)] else [])
    else []
  }

  predicate OccupiedIn(b: Grid, row: int, lo: int, hi: int)
    requires 0 <= row < 8 && 0 <= lo && hi <= 8
  {
    exists i :: lo <= i < hi && b[row][i] != Empty
  }

  predicate IsSliderOf(p: Piece, enemy: Color) {
    p == Occupied(enemy, Rook) || p == Occupied(enemy, Queen)
  }

  predicate SliderIn(b: Grid, row: int, lo: int, hi: int, enemy: Color)
    requires 0 <= row < 8 && 0 <= lo && hi <= 8
  {
    exists i :: lo <= i < hi && IsSliderOf(b[row][i], enemy)
  }

  predicate OtherIn(b: Grid, row: int, lo: int, hi: int, enemy: Color)
    requires 0 <= row < 8 && 0 <= lo && hi <= 8
  {
    exists i :: lo <= i < hi && b[row][i] != Empty && !IsSliderOf(b[row][i], enemy)
  }

  /** One more column scanned extends each of the three range predicates
      by that column. */
  lemma RangeScanNext(b: Grid, row: int, lo: int, i: int, enemy: Color)
    requires 0 <= row < 8 && 0 <= lo <= i < 8
    ensures OccupiedIn(b, row, lo, i + 1) <==> OccupiedIn(b, row, lo, i) || b[row][i] != Empty
    ensures SliderIn(b, row, lo, i + 1, enemy) <==> SliderIn(b, row, lo, i, enemy) || IsSliderOf(b[row][i], enemy)
    ensures OtherIn(b, row, lo, i + 1, enemy) <==>
            OtherIn(b, row, lo, i, enemy) || (b[row][i] != Empty && !IsSliderOf(b[row][i], enemy))
  {
    if OccupiedIn(b, row, lo, i + 1) {
      var j :| lo <= j < i + 1 && b[row][j] != Empty;
      if j < i { assert OccupiedIn(b, row, lo, i); }
    }
    if SliderIn(b, row, lo, i + 1, enemy) {
      var j :| lo <= j < i + 1 && IsSliderOf(b[row][j], enemy);
      if j < i { assert SliderIn(b, row, lo, i, enemy); }
    }
    if OtherIn(b, row, lo, i + 1, enemy) {
      var j :| lo <= j < i + 1 && b[row][j] != Empty && !IsSliderOf(b[row][j], enemy);
      if j < i { assert OtherIn(b, row, lo, i, enemy); }
    }
  }

  /** An empty range holds no piece. */
  lemma RangeScanEmpty(b: Grid, row: int, lo: int, hi: int, enemy: Color)
    requires 0 <= row < 8 && 0 <= lo && hi <= 8 && hi <= lo
    ensures !OccupiedIn(b, row, lo, hi) && !SliderIn(b, row, lo, hi, enemy) && !OtherIn(b, row, lo, hi, enemy)
  {
  }

  /** The column ranges the en-passant exposure test scans on the pawn's row,
      as half-open intervals: (inside low, inside high, outside low, outside
      high). `side` is -1 for the capture to the left and 1 to the right.
      The outside ranges towards the left stop at column 1. */
  function ExposureRanges(col: int, side: int, kingCol: int): (int, int, int, int) {
    if side == -1 then
      if kingCol < col then (kingCol + 1, col - 1, col + 1, 8) else (col + 1, kingCol, 1, col - 1)
    else
      if kingCol < col then (kingCol + 1, col, col + 2, 8) else (col + 2, kingCol, 1, col)
  }

  datatype Exposure = Exposure(attacking: bool, blocking: bool)

  /** The two flags of the exposure test. Over the outside range any enemy
      rook or queen sets `attacking` and any other piece sets `blocking`,
      wherever they stand. */
  function EnPassantScan(b: Grid, enemy: Color, row: int, col: int, side: int, king: Square): Exposure
    requires OnBoard(row, col) && OnBoard(king.0, king.1)
  {
    if king.0 != row then Exposure(false, false)
    else
      var (inLo, inHi, outLo, outHi) := ExposureRanges(col, side, king.1);
      Exposure(SliderIn(b, row, outLo, outHi, enemy),
               OccupiedIn(b, row, inLo, inHi) || OtherIn(b, row, outLo, outHi, enemy))
  }

  predicate EnPassantAllowed(sc: Scene, row: int, col: int, side: int)
    requires OnBoard(row, col) && OnBoard(sc.AllyKing().0, sc.AllyKing().1)
  {
    var e := EnPassantScan(sc.board, sc.Enemy(), row, col, side, sc.AllyKing());
    !e.attacking || e.blocking
  }

  /** The captures to one side (side = -1 left, 1 right), ordinary then en passant. */
  function PawnCaptures(sc: Scene, row: int, col: int, pinned: bool, pinDir: (int, int), side: int): seq<Move>
    requires OnBoard(row, col) && OnBoard(row + Forward(sc.whiteToMove), col)
    requires OnBoard(sc.AllyKing().0, sc.AllyKing().1)
  {
    if 0 <= col + side <= 7 && (!pinned || pinDir == (Forward(sc.whiteToMove), side)) then
      PawnTakes(sc, row, col, side) + EnPassantTakes(sc, row, col, side)
    else []
  }

  /** The ordinary capture onto the diagonal square, four promotions on the
      last row. */
  function PawnTakes(sc: Scene, row: int, col: int, side: int): seq<Move>
    requires OnBoard(row, col) && OnBoard(row + Forward(sc.whiteToMove), col + side)
  {
    var (r, c) := (row + Forward(sc.whiteToMove), col + side);
    if HasColor(sc.board[r][c], sc.Enemy()) then
      if LastRow(sc.whiteToMove, r) then PromotionMoves(sc.board, (row, col), (r, c))
      else [NewMove((row, col), (r, c), sc.board, false, false, None)]
    else []
  }

  /** The en-passant capture onto the recorded target, if the exposure test
      allows it. */
  function EnPassantTakes(sc: Scene, row: int, col: int, side: int): seq<Move>
    requires OnBoard(row, col) && OnBoard(row + Forward(sc.whiteToMove), col + side)
    requires OnBoard(sc.AllyKing().0, sc.AllyKing().1)
  {
    var (r, c) := (row + Forward(sc.whiteToMove), col + side);
    if sc.enPassant == Some((r, c)) && EnPassantAllowed(sc, row, col, side)
    then [NewMove((row, col), (r, c), sc.board, true, false, None)] else []
  }

  function PawnMoves(sc: Scene, pins: seq<Line>, row: int, col: int): (seq<Move>, seq<Line>)
    requires OnBoard(row, col) && OnBoard(row + Forward(sc.whiteToMove), col)
    requires OnBoard(sc.AllyKing().0, sc.AllyKing().1)
  {
    var look := TakePin(pins, row, col, true);
    (PawnAdvances(sc, row, col, look.pinned, look.dir)
     + PawnCaptures(sc, row, col, look.pinned, look.dir, -1)
     + PawnCaptures(sc, row, col, look.pinned, look.dir, 1),
     look.pins)
  }

  // ---------------------------------------------------------------------
  // GetAllPossibleMoves and SquareUnderAttack

  /** The generator the engine's dispatch table picks for the mover's piece on (row, col). */
  function PieceMoves(sc: Scene, pins: seq<Line>, row: int, col: int): (seq<Move>, seq<Line>)
    requires WellPlaced(sc) && OnBoard(row, col)
  {
    var p := sc.board[row][col];
    if HasColor(p, sc.Ally()) then
      match p.kind
      case Pawn =>
        assert NoPawnOnLastRank(sc.board, col);
        PawnMoves(sc, pins, row, col)
      case Rook => RookMoves(sc, pins, row, col)
      case Knight => KnightMoves(sc, pins, row, col)
      case Bishop => BishopMoves(sc, pins, row, col)
      case Queen => QueenMoves(sc, pins, row, col)
      case King => (KingMoves(sc, row, col), pins)
    else ([], pins)
  }

  /** The column loop of GetAllPossibleMoves over row `row`, from column `col` on. */
  function RowFrom(sc: Scene, pins: seq<Line>, row: int, col: nat): (seq<Move>, seq<Line>)
    requires WellPlaced(sc) && 0 <= row < 8 && col <= 8
    decreases |sc.board[row]| - col
  {
    if col == |sc.board[row]| then ([], pins)
    else
      var here := PieceMoves(sc, pins, row, col);
      var rest := RowFrom(sc, here.1, row, col + 1);
      (here.0 + rest.0, rest.1)
  }

  /** The row loop of GetAllPossibleMoves, from row `row` on. */
  function PossibleFrom(sc: Scene, pins: seq<Line>, row: nat): (seq<Move>, seq<Line>)
    requires WellPlaced(sc) && row <= 8
    decreases |sc.board| - row
  {
    if row == |sc.board| then ([], pins)
    else
      var here := RowFrom(sc, pins, row, 0);
      var rest := PossibleFrom(sc, here.1, row + 1);
      (here.0 + rest.0, rest.1)
  }

  function AllPossibleMoves(sc: Scene, pins: seq<Line>): (seq<Move>, seq<Line>)
    requires WellPlaced(sc)
  {
    PossibleFrom(sc, pins, 0)
  }

  predicate EndsOn(moves: seq<Move>, row: int, col: int) {
    exists i :: 0 <= i < |moves| && moves[i].endRow == row && moves[i].endCol == col
  }

  /** SquareUnderAttack: some move the opponent could make (pseudo-legally)
      ends on (row, col). Also returns the pin list the opponent's
      generation leaves behind. */
  function UnderAttack(sc: Scene, pins: seq<Line>, row: int, col: int): (seq<Line>, bool)
    requires WellPlaced(sc)
  {
    var opp := AllPossibleMoves(sc.Flipped(), pins);
    (opp.1, EndsOn(opp.0, row, col))
  }

  // ---------------------------------------------------------------------
  // Castling

  /** Room on the king's row for the squares the castle tests read. */
  predicate CastleRoom(sc: Scene, rights: CastleRights) {
    var col := sc.AllyKing().1;
    && ((if sc.whiteToMove then rights.whiteKSide else rights.blackKSide) ==> col + 2 < 8)
    && ((if sc.whiteToMove then rights.whiteQSide else rights.blackQSide) ==> col >= 3)
  }

  function KingSideCastleMoves(sc: Scene, pins: seq<Line>, row: int, col: int): (seq<Move>, seq<Line>)
    requires WellPlaced(sc) && OnBoard(row, col) && col + 2 < 8
  {
    var b := sc.board;
    if b[row][col + 1] == Empty && b[row][col + 2] == Empty then SafeCastle(sc, pins, row, col, 1)
    else ([], pins)
  }

  function QueenSideCastleMoves(sc: Scene, pins: seq<Line>, row: int, col: int): (seq<Move>, seq<Line>)
    requires WellPlaced(sc) && OnBoard(row, col) && col >= 3
  {
    var b := sc.board;
    if b[row][col - 1] == Empty && b[row][col - 2] == Empty && b[row][col - 3] == Empty then SafeCastle(sc, pins, row, col, -1)
    else ([], pins)
  }

  /** The attack tests both castle generators make once the squares are
      empty: the king's two squares towards the rook, nearest first. */
  function SafeCastle(sc: Scene, pins: seq<Line>, row: int, col: int, dir: int): (seq<Move>, seq<Line>)
    requires WellPlaced(sc) && OnBoard(row, col) && OnBoard(row, col + 2 * dir)
  {
    var first := UnderAttack(sc, pins, row, col + dir);
    if first.1 then ([], first.0)
    else
      var second := UnderAttack(sc, first.0, row, col + 2 * dir);
      if second.1 then ([], second.0)
      else ([NewMove((row, col), (row, col + 2 * dir), sc.board, false, true, None)], second.0)
  }

  function CastleMoves(sc: Scene, rights: CastleRights, pins: seq<Line>, row: int, col: int): (seq<Move>, seq<Line>)
    requires WellPlaced(sc) && OnBoard(row, col) && col == sc.AllyKing().1 && CastleRoom(sc, rights)
  {
    var home := UnderAttack(sc, pins, row, col);
    if home.1 then ([], home.0)
    else
      var king := if (if sc.whiteToMove then rights.whiteKSide else rights.blackKSide)
                  then KingSideCastleMoves(sc, home.0, row, col) else ([], home.0);
      var queen := if (if sc.whiteToMove then rights.whiteQSide else rights.blackQSide)
                   then QueenSideCastleMoves(sc, king.1, row, col) else ([], king.1);
      (king.0 + queen.0, queen.1)
  }

  // ---------------------------------------------------------------------
  // GetValidMoves

  /** The squares between the king and a checking slider, the checker's
      square included: the loop stops once it reaches the checker. */
  function BlockSquares(kr: int, kc: int, check: Line, i: nat): seq<Square>
    requires 1 <= i <= 8
    decreases 8 - i
  {
    if i == 8 then []
    else
      var sq := RayPoint(kr, kc, (check.dRow, check.dCol), i);
      [sq] + (if sq == (check.row, check.col) then [] else BlockSquares(kr, kc, check, i + 1))
  }

  /** A move the single-check filter keeps: a king move, or one that ends on a valid square. */
  predicate Keeps(m: Move, squares: seq<Square>) {
    m.IsKingMove() || (m.endRow, m.endCol) in squares
  }

  /** moves.remove(x): drop the first element that compares equal to x. */
  function RemoveFirstEqual(s: seq<Move>, x: Move): (r: seq<Move>)
    ensures (exists j :: 0 <= j < |s| && Equals(s[j], x)) ==> |r| == |s| - 1
    ensures forall m :: m in r ==> m in s
  {
    if s == [] then []
    else if Equals(s[0], x) then s[1..]
    else
      var rest := RemoveFirstEqual(s[1..], x);
      assert (exists j :: 0 <= j < |s| && Equals(s[j], x)) ==> exists j :: 0 <= j < |s[1..]| && Equals(s[1..][j], x) by {
        if exists j :: 0 <= j < |s| && Equals(s[j], x) {
          var j :| 0 <= j < |s| && Equals(s[j], x);
          assert j > 0 && s[1..][j - 1] == s[j];
        }
      }
      [s[0]] + rest
  }

  /** The removal loop of GetValidMoves: indices i, i-1, ..., 0 of the
      current list, each non-kept move removed with list.remove. */
  function RemoveUnblocking(moves: seq<Move>, squares: seq<Square>, i: int): seq<Move>
    requires -1 <= i < |moves|
    decreases i + 1
  {
    if i < 0 then moves
    else if Keeps(moves[i], squares) then RemoveUnblocking(moves, squares, i - 1)
    else
      var moves' := RemoveFirstEqual(moves, moves[i]);
      assert Equals(moves[i], moves[i]);
      RemoveUnblocking(moves', squares, i - 1)
  }

  /** What GetValidMoves returns and the flags it sets. */
  datatype Validity = Validity(moves: seq<Move>, inCheck: bool, pins: seq<Line>, checks: seq<Line>,
                               checkmate: bool, stalemate: bool)

  /** The moves GetValidMoves keeps under a single check: every possible
      move, less those of a piece other than the king that neither captures
      the checker nor (for a slider) blocks the line. */
  function SingleCheckMoves(sc: Scene, pins: seq<Line>, check: Line): (seq<Move>, seq<Line>)
    requires WellPlaced(sc) && OnBoard(check.row, check.col)
  {
    var (kr, kc) := sc.AllyKing();
    var all := AllPossibleMoves(sc, pins);
    (RemoveUnblocking(all.0, CheckSquares(sc.board, kr, kc, check), |all.0| - 1), all.1)
  }

  /** The squares a non-king move must end on to answer a single check:
      the checker's square for a knight, else the squares up to the checker. */
  function CheckSquares(b: Grid, kr: int, kc: int, check: Line): seq<Square>
    requires OnBoard(check.row, check.col)
  {
    if PieceLetter(b[check.row][check.col]) == 'N' then [(check.row, check.col)]
    else BlockSquares(kr, kc, check, 1)
  }

  /** The moves before the "no move left" test of GetValidMoves. */
  function Candidates(sc: Scene, rights: CastleRights, found: PinsAndChecks): (seq<Move>, seq<Line>)
    requires WellPlaced(sc) && CastleRoom(sc, rights)
    requires forall c :: c in found.checks ==> OnBoard(c.row, c.col)
  {
    var (kr, kc) := sc.AllyKing();
    if found.inCheck then
      if |found.checks| == 1 then
        assert found.checks[0] in found.checks;
        SingleCheckMoves(sc, found.pins, found.checks[0])
      else (KingMoves(sc, kr, kc), found.pins)
    else
      var all := AllPossibleMoves(sc, found.pins);
      var castles := CastleMoves(sc, rights, all.1, kr, kc);
      (all.0 + castles.0, castles.1)
  }

  /** Every recorded check names a square of the board. */
  lemma ChecksOnBoard(b: Grid, whiteToMove: bool, kr: int, kc: int)
    ensures forall c :: c in PinsAndChecksAt(b, whiteToMove, kr, kc).checks ==> OnBoard(c.row, c.col)
  {
    PinsAndChecksSound(b, whiteToMove, kr, kc);
  }

  /** The flags GetValidMoves writes last: with no move left, inCheck
      (which regenerates the opponent's moves and so may drop pins) decides
      between Checkmate and Stalemate, the other flag keeping its value;
      with a move left both are cleared. Yields the pins, Checkmate and
      Stalemate afterwards. */
  function Verdict(sc: Scene, pins: seq<Line>, moves: seq<Move>, checkmate: bool, stalemate: bool): (seq<Line>, bool, bool)
    requires WellPlaced(sc)
  {
    if |moves| == 0 then
      var attacked := UnderAttack(sc, pins, sc.AllyKing().0, sc.AllyKing().1);
      (attacked.0, if attacked.1 then true else checkmate, if attacked.1 then stalemate else true)
    else (pins, false, false)
  }

  /** The pin list left once the candidate moves are generated, which
      SquareUnderAttack then hands to the opponent's generation. */
  function CandidatePins(sc: Scene, rights: CastleRights): seq<Line>
    requires WellPlaced(sc) && CastleRoom(sc, rights)
  {
    var (kr, kc) := sc.AllyKing();
    ChecksOnBoard(sc.board, sc.whiteToMove, kr, kc);
    Candidates(sc, rights, PinsAndChecksAt(sc.board, sc.whiteToMove, kr, kc)).1
  }

  /** GetValidMoves, given the current Checkmate and Stalemate flags. */
  function ValidMoves(sc: Scene, rights: CastleRights, checkmate: bool, stalemate: bool): Validity
    requires WellPlaced(sc) && CastleRoom(sc, rights)
  {
    var (kr, kc) := sc.AllyKing();
    var found := PinsAndChecksAt(sc.board, sc.whiteToMove, kr, kc);
    ChecksOnBoard(sc.board, sc.whiteToMove, kr, kc);
    var gen := Candidates(sc, rights, found);
    var verdict := Verdict(sc, gen.1, gen.0, checkmate, stalemate);
    Validity(gen.0, found.inCheck, verdict.0, found.checks, verdict.1, verdict.2)
  }
}
