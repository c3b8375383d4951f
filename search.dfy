/** The move search: a two-ply minimax with flags, recursive minimax,
    negamax, and negamax with alpha-beta pruning.

    The searches see the game only through MakeMove, GetValidMoves and
    UndoMove. Here the positions they can reach form a tree: a node is a
    position as GetValidMoves leaves it (grid, side to move, Checkmate and
    Stalemate flags), and its branches are the valid moves in list order,
    each with the node reached by making it. A cursor walks the tree the way
    the searches drive the GameState: MakeMove goes down a branch, UndoMove
    comes back up.
 */
module Search {
  import opened Pieces
  import opened Moves
  import opened Evaluation
  import Bookkeeping

  const DEPTH: nat := 3

  datatype Tree = Node(board: Grid, whiteToMove: bool, checkmate: bool, stalemate: bool, branches: seq<Branch>)
  datatype Branch = Branch(move: Move, child: Tree)

  /** The valid moves of a node, in list order. */
  function MoveList(t: Tree): (ms: seq<Move>)
    ensures |ms| == |t.branches| && forall i :: 0 <= i < |ms| ==> ms[i] == t.branches[i].move
  {
    seq(|t.branches|, i requires 0 <= i < |t.branches| => t.branches[i].move)
  }

  /** The log of moves made since the search began, newest last: each entry
      is the index of the move among the valid moves of its position. */
  datatype Log = Start | Then(earlier: Log, index: nat)

  /** The node a log of moves leads to, if each move exists. */
  function Reach(t: Tree, log: Log): Option<Tree> {
    match log
    case Start => Some(t)
    case Then(earlier, i) =>
      match Reach(t, earlier)
      case None => None
      case Some(u) => if i < |u.branches| then Some(u.branches[i].child) else None
  }

  /** BoardScore of a node. */
  function Leaf(t: Tree): int {
    BoardScore(t.checkmate, t.stalemate, t.whiteToMove, t.board)
  }

  /** scoreMaterial of a node's grid. */
  function MaterialLeaf(t: Tree): int {
    ScoreMaterial(t.board)
  }

  /** The game as the searches see it: the position the search started in
      and the log of the moves made from it. */
  class Game {
    const root: Tree
    var log: Log

    ghost predicate Valid()
      reads this`log
    {
      Reach(root, log).Some?
    }

    function Current(): Tree
      reads this`log
      requires Valid()
    {
      Reach(root, log).value
    }

    constructor(t: Tree)
      ensures root == t && log == Start && Valid() && Current() == t
    {
      root := t;
      log := Start;
    }

    /** MakeMove of the i-th valid move. */
    method MakeMove(i: nat)
      requires Valid() && i < |Current().branches|
      modifies this`log
      ensures log == Then(old(log), i) && Valid() && Current() == old(Current()).branches[i].child
    {
      log := Then(log, i);
    }

    /** UndoMove: back to the position before the last move; nothing
        changes when no move has been made. */
    method UndoMove()
      requires Valid()
      modifies this`log
      ensures log == if old(log).Then? then old(log).earlier else Start
      ensures Valid()
    {
      if log.Then? {
        log := log.earlier;
      }
    }

    method GetValidMoves() returns (moves: seq<Move>)
      requires Valid()
      ensures moves == MoveList(Current())
    {
      moves := MoveList(Current());
    }
  }

  // -------------------------------------------------------------------
  // The loops over the children: running best scores and the move chosen

  /** The running maximum of a loop that starts at floor and keeps a score
      only when it is strictly greater. */
  function SeqMax(floor: int, ss: seq<int>): (m: int)
    ensures m >= floor && forall i :: 0 <= i < |ss| ==> ss[i] <= m
    decreases |ss|
  {
    if ss == [] then floor
    else
      var m := SeqMax(floor, ss[..|ss| - 1]);
      if ss[|ss| - 1] > m then ss[|ss| - 1] else m
  }

  /** The running maximum is the floor or one of the scores. */
  lemma {:induction false} SeqMaxAttained(floor: int, ss: seq<int>)
    ensures SeqMax(floor, ss) == floor || exists i :: 0 <= i < |ss| && ss[i] == SeqMax(floor, ss)
    decreases |ss|
  {
    if ss != [] {
      var n := |ss|;
      SeqMaxAttained(floor, ss[..n - 1]);
      if SeqMax(floor, ss) != floor && SeqMax(floor, ss) != ss[n - 1] {
        var j :| 0 <= j < n - 1 && ss[..n - 1][j] == SeqMax(floor, ss[..n - 1]);
        assert ss[j] == SeqMax(floor, ss);
      }
    }
  }

  /** A bound on the floor and on every score bounds the running maximum. */
  lemma {:induction false} SeqMaxBelow(floor: int, ss: seq<int>, c: int)
    requires floor <= c && forall i :: 0 <= i < |ss| ==> ss[i] <= c
    ensures SeqMax(floor, ss) <= c
    decreases |ss|
  {
    if ss != [] {
      SeqMaxBelow(floor, ss[..|ss| - 1], c);
    }
  }

  /** The running maximum over a prefix never exceeds the maximum over all. */
  lemma {:induction false} PrefixMax(floor: int, ss: seq<int>, k: nat)
    requires k <= |ss|
    ensures SeqMax(floor, ss[..k]) <= SeqMax(floor, ss)
    decreases |ss|
  {
    if k < |ss| {
      var n := |ss|;
      PrefixMax(floor, ss[..n - 1], k);
      assert ss[..n - 1][..k] == ss[..k];
    } else {
      assert ss[..k] == ss;
    }
  }

  /** The running minimum of a loop that starts at ceiling and keeps a
      score only when it is strictly smaller. */
  function SeqMin(ceiling: int, ss: seq<int>): (m: int)
    ensures m <= ceiling && forall i :: 0 <= i < |ss| ==> m <= ss[i]
    decreases |ss|
  {
    if ss == [] then ceiling
    else
      var m := SeqMin(ceiling, ss[..|ss| - 1]);
      if ss[|ss| - 1] < m then ss[|ss| - 1] else m
  }

  function Negated(ss: seq<int>): (ns: seq<int>)
    ensures |ns| == |ss| && forall i :: 0 <= i < |ss| ==> ns[i] == -ss[i]
  {
    seq(|ss|, i requires 0 <= i < |ss| => -ss[i])
  }

  /** A minimum is a maximum of the negated scores, negated. */
  lemma {:induction false} SeqMinIsNegatedMax(ceiling: int, ss: seq<int>)
    ensures SeqMin(ceiling, ss) == -SeqMax(-ceiling, Negated(ss))
    decreases |ss|
  {
    if ss != [] {
      var n := |ss|;
      assert Negated(ss)[..n - 1] == Negated(ss[..n - 1]);
      SeqMinIsNegatedMax(ceiling, ss[..n - 1]);
    }
  }

  /** The index of the last strict improvement of the running maximum: the
      move a search records as next_move. */
  function Choice(floor: int, ss: seq<int>): (k: Option<nat>)
    ensures k.Some? ==> k.value < |ss|
    decreases |ss|
  {
    if ss == [] then None
    else if ss[|ss| - 1] > SeqMax(floor, ss[..|ss| - 1]) then Some(|ss| - 1)
    else Choice(floor, ss[..|ss| - 1])
  }

  /** The recorded move is the first one reaching the best score, and there
      is one exactly when some score beats the floor. */
  lemma {:induction false} ChoiceIsFirstBest(floor: int, ss: seq<int>)
    ensures Choice(floor, ss).None? <==> forall i :: 0 <= i < |ss| ==> ss[i] <= floor
    ensures Choice(floor, ss).Some? ==>
              var k := Choice(floor, ss).value;
              && ss[k] == SeqMax(floor, ss) && ss[k] > floor
              && forall j :: 0 <= j < k ==> ss[j] < ss[k]
    decreases |ss|
  {
    if ss != [] {
      var n := |ss|;
      var prefix := ss[..n - 1];
      ChoiceIsFirstBest(floor, prefix);
      assert forall i :: 0 <= i < n - 1 ==> prefix[i] == ss[i];
      if ss[n - 1] <= SeqMax(floor, prefix) && Choice(floor, prefix).None? {
        SeqMaxAttained(floor, prefix);
        assert SeqMax(floor, prefix) == floor;
      }
    }
  }

  lemma MaxStep(floor: int, ss: seq<int>, i: nat)
    requires i < |ss|
    ensures SeqMax(floor, ss[..i + 1]) == if ss[i] > SeqMax(floor, ss[..i]) then ss[i] else SeqMax(floor, ss[..i])
  {
    assert ss[..i + 1][..i] == ss[..i];
  }

  /** The loop's step: one more score either improves on the running
      maximum, and becomes the choice, or leaves both as they were. */
  lemma ChoiceStep(floor: int, ss: seq<int>, i: nat)
    requires i < |ss|
    ensures SeqMax(floor, ss[..i + 1]) == if ss[i] > SeqMax(floor, ss[..i]) then ss[i] else SeqMax(floor, ss[..i])
    ensures Choice(floor, ss[..i + 1]) == if ss[i] > SeqMax(floor, ss[..i]) then Some(i) else Choice(floor, ss[..i])
  {
    assert ss[..i + 1][..i] == ss[..i];
  }

  /** The move at a chosen index, or the earlier value when nothing was chosen. */
  function Chosen(t: Tree, k: Option<nat>, earlier: Option<Move>): Option<Move> {
    if k.Some? && k.value < |t.branches| then Some(t.branches[k.value].move) else earlier
  }

  // -------------------------------------------------------------------
  // Negamax and minimax as values

  /** FindMove_NegaMax's value, for a leaf scorer eval: at depth 0 the
      leaf seen from the side whose multiplier is turn, otherwise the best
      of the negated child values, starting from -CHECKMATE. */
  function NegaMax(t: Tree, depth: nat, turn: int, eval: Tree -> int): int
    decreases depth, 1
  {
    if depth == 0 then turn * eval(t) else SeqMax(-CHECKMATE, NegaScores(t, depth, turn, eval))
  }

  /** The negated values of the children, in list order. */
  function NegaScores(t: Tree, depth: nat, turn: int, eval: Tree -> int): (ss: seq<int>)
    requires depth > 0
    ensures |ss| == |t.branches|
    decreases depth, 0
  {
    seq(|t.branches|, i requires 0 <= i < |t.branches| => -NegaMax(t.branches[i].child, depth - 1, -turn, eval))
  }

  /** FindMove_MinMax's value: White maximises from -CHECKMATE, Black
      minimises from CHECKMATE, and leaves are scored by material alone. */
  function MinMax(t: Tree, depth: nat, whiteToMove: bool): int
    decreases depth, 1
  {
    if depth == 0 then ScoreMaterial(t.board)
    else if whiteToMove then SeqMax(-CHECKMATE, MinMaxScores(t, depth, false))
    else SeqMin(CHECKMATE, MinMaxScores(t, depth, true))
  }

  function MinMaxScores(t: Tree, depth: nat, whiteToMove: bool): (ss: seq<int>)
    requires depth > 0
    ensures |ss| == |t.branches|
    decreases depth, 0
  {
    seq(|t.branches|, i requires 0 <= i < |t.branches| => MinMax(t.branches[i].child, depth - 1, whiteToMove))
  }

  function Sign(whiteToMove: bool): int { if whiteToMove then 1 else -1 }

  /** Minimax is negamax over material, seen from White: the two searches
      agree whenever they score the leaves alike. */
  lemma {:induction false} MinMaxIsNegaMax(t: Tree, depth: nat, whiteToMove: bool)
    ensures MinMax(t, depth, whiteToMove) == Sign(whiteToMove) * NegaMax(t, depth, Sign(whiteToMove), MaterialLeaf)
    decreases depth
  {
    if depth > 0 {
      var n := |t.branches|;
      var mm := MinMaxScores(t, depth, !whiteToMove);
      var ns := NegaScores(t, depth, Sign(whiteToMove), MaterialLeaf);
      forall i | 0 <= i < n
        ensures mm[i] == Sign(whiteToMove) * ns[i]
      {
        MinMaxIsNegaMax(t.branches[i].child, depth - 1, !whiteToMove);
      }
      if whiteToMove {
        assert mm == ns;
      } else {
        assert mm == Negated(ns);
        SeqMinIsNegatedMax(CHECKMATE, mm);
        assert Negated(mm) == ns;
      }
    }
  }

  // -------------------------------------------------------------------
  // Alpha-beta as a value

  /** What a search loop returns: its best score and the index of the last
      strict improvement, which the root records as next_move. */
  datatype Outcome = Outcome(score: int, choice: Option<nat>)

  /** FindMove_NegaMax_AB_Pruning's value. */
  function AlphaBeta(t: Tree, depth: nat, alpha: int, beta: int, turn: int): int
    decreases depth, 1
  {
    if depth == 0 then turn * Leaf(t) else AlphaBetaLoop(t, depth, turn, 0, alpha, beta, -CHECKMATE, None).score
  }

  /** The move loop of alpha-beta from child i on, with the window and the
      running best so far; it stops once alpha reaches beta. */
  function AlphaBetaLoop(t: Tree, depth: nat, turn: int, i: nat, alpha: int, beta: int, best: int, choice: Option<nat>): Outcome
    requires depth > 0 && i <= |t.branches|
    decreases depth, 0, |t.branches| - i
  {
    if i == |t.branches| then Outcome(best, choice)
    else
      var score := -AlphaBeta(t.branches[i].child, depth - 1, -beta, -alpha, -turn);
      var best' := if score > best then score else best;
      var choice' := if score > best then Some(i) else choice;
      var alpha' := if best' > alpha then best' else alpha;
      if alpha' >= beta then Outcome(best', choice')
      else AlphaBetaLoop(t, depth, turn, i + 1, alpha', beta, best', choice')
  }

  /** The fail-soft guarantee of a search with window (alpha, beta) whose
      true value is v: a result at or below alpha bounds v from above, one
      at or above beta bounds it from below, and one strictly inside the
      window is v. */
  predicate Within(r: int, v: int, alpha: int, beta: int) {
    && (r <= alpha ==> v <= r)
    && (r >= beta ==> v >= r)
    && (alpha < r < beta ==> r == v)
  }

  /** Alpha-beta keeps the fail-soft guarantee against negamax. */
  lemma {:induction false} AlphaBetaWithin(t: Tree, depth: nat, alpha: int, beta: int, turn: int)
    requires alpha < beta
    ensures Within(AlphaBeta(t, depth, alpha, beta, turn), NegaMax(t, depth, turn, Leaf), alpha, beta)
    decreases depth, 1
  {
    if depth > 0 {
      AlphaBetaLoopWithin(t, depth, turn, 0, alpha, alpha, beta, -CHECKMATE, None);
    }
  }

  /** The invariant of the alpha-beta loop: alpha has grown from alpha0 at
      most to the running best; a running best above alpha0 is the true
      best of the children seen, and one at or below it bounds that best. */
  predicate LoopInvariant(alpha0: int, alpha: int, beta: int, best: int, m: int) {
    && alpha0 <= alpha < beta && (alpha <= alpha0 || alpha <= best)
    && (best > alpha0 ==> best == m) && (best <= alpha0 ==> m <= best)
  }

  /** One child of the alpha-beta loop, on its scores alone: x is the
      result of the child's search in the swapped window, v its true value,
      and m the true best before it. The invariant carries over to the next
      child, or the loop stops with a best bounding the true best. */
  lemma LoopStep(alpha0: int, alpha: int, beta: int, best: int, m: int, x: int, v: int)
    requires LoopInvariant(alpha0, alpha, beta, best, m)
    requires Within(x, v, -beta, -alpha)
    ensures var r, s := -x, -v;
            var best' := if r > best then r else best;
            var alpha' := if best' > alpha then best' else alpha;
            var m' := if s > m then s else m;
            if alpha' >= beta then best' >= beta && best' <= m'
            else LoopInvariant(alpha0, alpha', beta, best', m')
  {
  }

  /** One turn of the alpha-beta loop, with the best score, the choice and
      alpha it leaves behind: alpha never decreases, and the loop stops as
      soon as alpha reaches beta. */
  lemma AlphaBetaLoopStep(t: Tree, depth: nat, turn: int, i: nat, alpha: int, beta: int, best: int, choice: Option<nat>)
    returns (best': int, choice': Option<nat>, alpha': int)
    requires depth > 0 && i < |t.branches|
    ensures var score := -AlphaBeta(t.branches[i].child, depth - 1, -beta, -alpha, -turn);
            && best' == (if score > best then score else best)
            && choice' == (if score > best then Some(i) else choice)
            && alpha' == (if best' > alpha then best' else alpha)
    ensures alpha <= alpha' && best' <= alpha'
    ensures AlphaBetaLoop(t, depth, turn, i, alpha, beta, best, choice)
            == if alpha' >= beta then Outcome(best', choice') else AlphaBetaLoop(t, depth, turn, i + 1, alpha', beta, best', choice')
  {
    var score := -AlphaBeta(t.branches[i].child, depth - 1, -beta, -alpha, -turn);
    best' := if score > best then score else best;
    choice' := if score > best then Some(i) else choice;
    alpha' := if best' > alpha then best' else alpha;
  }

  lemma {:induction false} AlphaBetaLoopWithin(t: Tree, depth: nat, turn: int, i: nat, alpha0: int, alpha: int, beta: int,
                                               best: int, choice: Option<nat>)
    requires depth > 0 && i <= |t.branches|
    requires LoopInvariant(alpha0, alpha, beta, best, SeqMax(-CHECKMATE, NegaScores(t, depth, turn, Leaf)[..i]))
    ensures Within(AlphaBetaLoop(t, depth, turn, i, alpha, beta, best, choice).score,
                   NegaMax(t, depth, turn, Leaf), alpha0, beta)
    decreases depth, 0, |t.branches| - i, 1
  {
    var ss := NegaScores(t, depth, turn, Leaf);
    assert NegaMax(t, depth, turn, Leaf) == SeqMax(-CHECKMATE, ss);
    if i == |t.branches| {
      assert ss[..i] == ss;
    } else {
      var best', choice', alpha' := AlphaBetaLoopAdvance(t, depth, turn, i, alpha0, alpha, beta, best, choice);
      if alpha' >= beta {
        PrefixMax(-CHECKMATE, ss, i + 1);
      } else {
        AlphaBetaLoopWithin(t, depth, turn, i + 1, alpha0, alpha', beta, best', choice');
      }
    }
  }

  /** One child of the alpha-beta loop against the running negamax best:
      either the loop stops with a best at or above beta that does not
      exceed the true best of the children seen, or the invariant holds for
      the next child. */
  lemma AlphaBetaLoopAdvance(t: Tree, depth: nat, turn: int, i: nat, alpha0: int, alpha: int, beta: int,
                             best: int, choice: Option<nat>)
    returns (best': int, choice': Option<nat>, alpha': int)
    requires depth > 0 && i < |t.branches|
    requires LoopInvariant(alpha0, alpha, beta, best, SeqMax(-CHECKMATE, NegaScores(t, depth, turn, Leaf)[..i]))
    ensures AlphaBetaLoop(t, depth, turn, i, alpha, beta, best, choice)
            == if alpha' >= beta then Outcome(best', choice') else AlphaBetaLoop(t, depth, turn, i + 1, alpha', beta, best', choice')
    ensures alpha' >= beta ==> beta <= best' <= SeqMax(-CHECKMATE, NegaScores(t, depth, turn, Leaf)[..i + 1])
    ensures alpha' < beta ==> LoopInvariant(alpha0, alpha', beta, best', SeqMax(-CHECKMATE, NegaScores(t, depth, turn, Leaf)[..i + 1]))
    decreases depth, 0, |t.branches| - i, 0
  {
    var ss := NegaScores(t, depth, turn, Leaf);
    var child := t.branches[i].child;
    AlphaBetaWithin(child, depth - 1, -beta, -alpha, -turn);
    assert ss[i] == -NegaMax(child, depth - 1, -turn, Leaf);
    MaxStep(-CHECKMATE, ss, i);
    LoopStep(alpha0, alpha, beta, best, SeqMax(-CHECKMATE, ss[..i]),
             AlphaBeta(child, depth - 1, -beta, -alpha, -turn), NegaMax(child, depth - 1, -turn, Leaf));
    best', choice', alpha' := AlphaBetaLoopStep(t, depth, turn, i, alpha, beta, best, choice);
  }

  /** With the root window (-CHECKMATE, CHECKMATE), alpha-beta returns the
      negamax score at every depth but 1; at depth 2 and more no value can
      leave the window, since every child is worth at least -CHECKMATE. */
  lemma AlphaBetaAgrees(t: Tree, depth: nat, turn: int)
    requires depth != 1
    ensures AlphaBeta(t, depth, -CHECKMATE, CHECKMATE, turn) == NegaMax(t, depth, turn, Leaf)
  {
    AlphaBetaWithin(t, depth, -CHECKMATE, CHECKMATE, turn);
    if depth > 0 {
      var ss := NegaScores(t, depth, turn, Leaf);
      forall i | 0 <= i < |ss|
        ensures ss[i] <= CHECKMATE
      {
        assert ss[i] == -NegaMax(t.branches[i].child, depth - 1, -turn, Leaf);
      }
      SeqMaxBelow(-CHECKMATE, ss, CHECKMATE);
    }
  }

  /** Scores after position k that do not beat the running maximum there
      change neither the maximum nor the choice. */
  lemma {:induction false} ChoiceSettled(floor: int, ss: seq<int>, k: nat)
    requires k <= |ss|
    requires forall j :: k <= j < |ss| ==> ss[j] <= SeqMax(floor, ss[..k])
    ensures SeqMax(floor, ss) == SeqMax(floor, ss[..k]) && Choice(floor, ss) == Choice(floor, ss[..k])
    decreases |ss|
  {
    if k == |ss| {
      assert ss[..k] == ss;
    } else {
      var n := |ss|;
      var prefix := ss[..n - 1];
      assert prefix[..k] == ss[..k];
      ChoiceSettled(floor, prefix, k);
    }
  }

  /** The root loop of alpha-beta, window (-CHECKMATE, CHECKMATE), from
      child i on: alpha is the running best, which is the running negamax
      maximum, and the choice is negamax's choice so far. A child that does
      not beat the best fails low and is not recorded; one that does is
      searched exactly; and only a score of CHECKMATE, which no later child
      can beat, stops the loop. */
  lemma {:induction false} AlphaBetaRootLoop(t: Tree, depth: nat, turn: int, i: nat, best: int, choice: Option<nat>)
    requires depth >= 2 && i <= |t.branches|
    requires best < CHECKMATE
    requires best == SeqMax(-CHECKMATE, NegaScores(t, depth, turn, Leaf)[..i])
    requires choice == Choice(-CHECKMATE, NegaScores(t, depth, turn, Leaf)[..i])
    ensures AlphaBetaLoop(t, depth, turn, i, best, CHECKMATE, best, choice).choice
            == Choice(-CHECKMATE, NegaScores(t, depth, turn, Leaf))
    decreases |t.branches| - i
  {
    var ss := NegaScores(t, depth, turn, Leaf);
    if i == |t.branches| {
      assert ss[..i] == ss;
    } else {
      var child := t.branches[i].child;
      var x := AlphaBeta(child, depth - 1, -CHECKMATE, -best, -turn);
      var v := NegaMax(child, depth - 1, -turn, Leaf);
      AlphaBetaWithin(child, depth - 1, -CHECKMATE, -best, -turn);
      assert v >= -CHECKMATE;
      assert ss[i] == -v;
      var best', choice', alpha' := AlphaBetaLoopStep(t, depth, turn, i, best, CHECKMATE, best, choice);
      ChoiceStep(-CHECKMATE, ss, i);
      if -x > best {
        assert ss[i] == -x;
      } else {
        assert ss[i] <= best;
      }
      if alpha' >= CHECKMATE {
        forall j | i + 1 <= j < |ss|
          ensures ss[j] <= SeqMax(-CHECKMATE, ss[..i + 1])
        {
          assert ss[j] == -NegaMax(t.branches[j].child, depth - 1, -turn, Leaf);
        }
        ChoiceSettled(-CHECKMATE, ss, i + 1);
      } else {
        AlphaBetaRootLoop(t, depth, turn, i + 1, best', choice');
      }
    }
  }

  /** From depth 2 on, the move alpha-beta records at the root is negamax's:
      the first move reaching the best score, or none. */
  lemma AlphaBetaChoiceAgrees(t: Tree, depth: nat, turn: int)
    requires depth >= 2
    ensures AlphaBetaLoop(t, depth, turn, 0, -CHECKMATE, CHECKMATE, -CHECKMATE, None).choice
            == Choice(-CHECKMATE, NegaScores(t, depth, turn, Leaf))
  {
    assert NegaScores(t, depth, turn, Leaf)[..0] == [];
    AlphaBetaRootLoop(t, depth, turn, 0, -CHECKMATE, None);
  }

  // -------------------------------------------------------------------
  // The searches

  /** The module's global next_move. */
  class Searcher {
    var nextMove: Option<Move>

    constructor()
      ensures nextMove == None
    {
      nextMove := None;
    }

    /** FindMove_NegaMax: every MakeMove is undone before the next move is
        tried, so the game is left at the node it started from. At depth
        DEPTH the first move reaching the best score is recorded. The
        searches start at DEPTH, so no deeper call reaches that depth again. */
    method FindMoveNegaMax(g: Game, validMoves: seq<Move>, depth: nat, turn: int) returns (score: int)
      requires g.Valid() && validMoves == MoveList(g.Current()) && depth <= DEPTH
      modifies g`log, this`nextMove
      ensures g.log == old(g.log)
      ensures score == NegaMax(old(g.Current()), depth, turn, Leaf)
      ensures depth < DEPTH ==> nextMove == old(nextMove)
      ensures depth == DEPTH ==>
                nextMove == Chosen(old(g.Current()), Choice(-CHECKMATE, NegaScores(old(g.Current()), depth, turn, Leaf)), old(nextMove))
      decreases depth, 1
    {
      ghost var t := g.Current();
      if depth == 0 {
        var here := g.Current();
        return turn * BoardScore(here.checkmate, here.stalemate, here.whiteToMove, here.board);
      }
      ghost var ss := NegaScores(t, depth, turn, Leaf);
      var maxScore := -CHECKMATE;
      for i := 0 to |validMoves|
        invariant g.Valid() && g.log == old(g.log)
        invariant maxScore == SeqMax(-CHECKMATE, ss[..i])
        invariant nextMove == if depth == DEPTH then Chosen(t, Choice(-CHECKMATE, ss[..i]), old(nextMove)) else old(nextMove)
      {
        ChoiceStep(-CHECKMATE, ss, i);
        var score := NegaMaxChild(g, i, depth, turn);
        if score > maxScore {
          maxScore := score;
          if depth == DEPTH {
            nextMove := Some(validMoves[i]);
          }
        }
      }
      assert ss[..|validMoves|] == ss;
      score := maxScore;
    }

    /** One turn of FindMove_NegaMax's loop: make the i-th move, search the
        opponent's replies one level shallower, undo the move. */
    method NegaMaxChild(g: Game, i: nat, depth: nat, turn: int) returns (score: int)
      requires g.Valid() && i < |g.Current().branches| && 0 < depth <= DEPTH
      modifies g`log, this`nextMove
      ensures g.log == old(g.log) && nextMove == old(nextMove)
      ensures score == NegaScores(old(g.Current()), depth, turn, Leaf)[i]
      decreases depth, 0
    {
      g.MakeMove(i);
      var nextMoves := g.GetValidMoves();
      var s := FindMoveNegaMax(g, nextMoves, depth - 1, -turn);
      score := -s;
      g.UndoMove();
    }

    /** FindBestMove_NegaMax: the move recorded by a negamax search of
        depth DEPTH, or None when every move scores -CHECKMATE or less. */
    method FindBestMoveNegaMax(g: Game, validMoves: seq<Move>) returns (best: Option<Move>)
      requires g.Valid() && validMoves == MoveList(g.Current())
      modifies g`log, this`nextMove
      ensures g.log == old(g.log)
      ensures var t := old(g.Current());
              best == Chosen(t, Choice(-CHECKMATE, NegaScores(t, DEPTH, Sign(t.whiteToMove), Leaf)), None)
    {
      nextMove := None;
      var turn := if g.Current().whiteToMove then 1 else -1;
      var _ := FindMoveNegaMax(g, validMoves, DEPTH, turn);
      best := nextMove;
    }

    /** FindMove_MinMax: White's loop keeps strict improvements of a
        maximum, Black's of a minimum. */
    method FindMoveMinMax(g: Game, validMoves: seq<Move>, depth: nat, whiteToMove: bool) returns (score: int)
      requires g.Valid() && validMoves == MoveList(g.Current()) && depth <= DEPTH
      modifies g`log, this`nextMove
      ensures g.log == old(g.log)
      ensures score == MinMax(old(g.Current()), depth, whiteToMove)
      ensures depth < DEPTH ==> nextMove == old(nextMove)
      ensures depth == DEPTH ==> nextMove == Chosen(old(g.Current()), MinMaxChoice(old(g.Current()), depth, whiteToMove), old(nextMove))
      decreases depth, 1
    {
      ghost var t := g.Current();
      if depth == 0 {
        var here := g.Current();
        return ScoreMaterial(here.board);
      }
      ghost var ss := MinMaxScores(t, depth, !whiteToMove);
      ghost var os := Oriented(ss, whiteToMove);
      var bestScore := if whiteToMove then -CHECKMATE else CHECKMATE;
      for i := 0 to |validMoves|
        invariant g.Valid() && g.log == old(g.log)
        invariant Orient(bestScore, whiteToMove) == SeqMax(-CHECKMATE, os[..i])
        invariant nextMove == if depth == DEPTH then Chosen(t, Choice(-CHECKMATE, os[..i]), old(nextMove)) else old(nextMove)
      {
        ChoiceStep(-CHECKMATE, os, i);
        var score := MinMaxChild(g, i, depth, whiteToMove);
        assert os[i] == Orient(score, whiteToMove);
        if whiteToMove {
          if score > bestScore {
            bestScore := score;
            if depth == DEPTH {
              nextMove := Some(validMoves[i]);
            }
          }
        } else {
          if score < bestScore {
            bestScore := score;
            if depth == DEPTH {
              nextMove := Some(validMoves[i]);
            }
          }
        }
      }
      assert os[..|validMoves|] == os;
      MinMaxOriented(t, depth, whiteToMove);
      score := bestScore;
    }

    /** One turn of FindMove_MinMax's loop. */
    method MinMaxChild(g: Game, i: nat, depth: nat, whiteToMove: bool) returns (score: int)
      requires g.Valid() && i < |g.Current().branches| && 0 < depth <= DEPTH
      modifies g`log, this`nextMove
      ensures g.log == old(g.log) && nextMove == old(nextMove)
      ensures score == MinMaxScores(old(g.Current()), depth, !whiteToMove)[i]
      decreases depth, 0
    {
      ghost var t := g.Current();
      assert MinMaxScores(t, depth, !whiteToMove)[i] == MinMax(t.branches[i].child, depth - 1, !whiteToMove);
      g.MakeMove(i);
      var nextMoves := g.GetValidMoves();
      score := FindMoveMinMax(g, nextMoves, depth - 1, !whiteToMove);
      g.UndoMove();
    }

    /** FindBestMove_MinMax. */
    method FindBestMoveMinMax(g: Game, validMoves: seq<Move>) returns (best: Option<Move>)
      requires g.Valid() && validMoves == MoveList(g.Current())
      modifies g`log, this`nextMove
      ensures g.log == old(g.log)
      ensures var t := old(g.Current()); best == Chosen(t, MinMaxChoice(t, DEPTH, t.whiteToMove), None)
    {
      nextMove := None;
      var _ := FindMoveMinMax(g, validMoves, DEPTH, g.Current().whiteToMove);
      best := nextMove;
    }

    /** FindMove_NegaMax_AB_Pruning: the negamax loop that also raises
        alpha to the best score and stops once alpha reaches beta. */
    method FindMoveAlphaBeta(g: Game, validMoves: seq<Move>, depth: nat, alpha: int, beta: int, turn: int)
      returns (score: int)
      requires g.Valid() && validMoves == MoveList(g.Current()) && depth <= DEPTH
      modifies g`log, this`nextMove
      ensures g.log == old(g.log)
      ensures score == AlphaBeta(old(g.Current()), depth, alpha, beta, turn)
      ensures depth < DEPTH ==> nextMove == old(nextMove)
      ensures depth == DEPTH ==>
                nextMove == Chosen(old(g.Current()),
                                   AlphaBetaLoop(old(g.Current()), depth, turn, 0, alpha, beta, -CHECKMATE, None).choice,
                                   old(nextMove))
      decreases depth, 1
    {
      ghost var t := g.Current();
      if depth == 0 {
        var here := g.Current();
        return turn * BoardScore(here.checkmate, here.stalemate, here.whiteToMove, here.board);
      }
      ghost var outcome := AlphaBetaLoop(t, depth, turn, 0, alpha, beta, -CHECKMATE, None);
      var maxScore := -CHECKMATE;
      var a := alpha;
      ghost var choice: Option<nat> := None;
      var i := 0;
      while i < |validMoves|
        invariant 0 <= i <= |validMoves|
        invariant g.Valid() && g.log == old(g.log)
        invariant AlphaBetaLoop(t, depth, turn, i, a, beta, maxScore, choice) == outcome
        invariant nextMove == if depth == DEPTH then Chosen(t, choice, old(nextMove)) else old(nextMove)
        decreases |validMoves| - i
      {
        ghost var best', choice', alpha' := AlphaBetaLoopStep(t, depth, turn, i, a, beta, maxScore, choice);
        var score := AlphaBetaChild(g, i, depth, a, beta, turn);
        if score > maxScore {
          maxScore := score;
          choice := Some(i);
          if depth == DEPTH {
            nextMove := Some(validMoves[i]);
          }
        }
        if maxScore > a {
          a := maxScore;
        }
        if a >= beta {
          break;
        }
        i := i + 1;
      }
      score := maxScore;
    }

    /** One turn of FindMove_NegaMax_AB_Pruning's loop, with the window
        swapped and negated for the opponent. */
    method AlphaBetaChild(g: Game, i: nat, depth: nat, alpha: int, beta: int, turn: int) returns (score: int)
      requires g.Valid() && i < |g.Current().branches| && 0 < depth <= DEPTH
      modifies g`log, this`nextMove
      ensures g.log == old(g.log) && nextMove == old(nextMove)
      ensures score == -AlphaBeta(old(g.Current()).branches[i].child, depth - 1, -beta, -alpha, -turn)
      decreases depth, 0
    {
      g.MakeMove(i);
      var nextMoves := g.GetValidMoves();
      var s := FindMoveAlphaBeta(g, nextMoves, depth - 1, -beta, -alpha, -turn);
      score := -s;
      g.UndoMove();
    }

    /** FindBestMove_NegaMax_AB_Pruning: the root window is
        (-CHECKMATE, CHECKMATE). */
    method FindBestMoveAlphaBeta(g: Game, validMoves: seq<Move>) returns (best: Option<Move>)
      requires g.Valid() && validMoves == MoveList(g.Current())
      modifies g`log, this`nextMove
      ensures g.log == old(g.log)
      ensures var t := old(g.Current());
              best == Chosen(t, AlphaBetaLoop(t, DEPTH, Sign(t.whiteToMove), 0, -CHECKMATE, CHECKMATE, -CHECKMATE, None).choice, None)
    ensures var t := old(g.Current());
              best == Chosen(t, Choice(-CHECKMATE, NegaScores(t, DEPTH, Sign(t.whiteToMove), Leaf)), None)
    {
      AlphaBetaChoiceAgrees(g.Current(), DEPTH, Sign(g.Current().whiteToMove));
      nextMove := None;
      var turn := if g.Current().whiteToMove then 1 else -1;
      var _ := FindMoveAlphaBeta(g, validMoves, DEPTH, -CHECKMATE, CHECKMATE, turn);
      best := nextMove;
    }
  }

  /** The scores a minimax loop compares, turned so that a better score is
      a larger one: as they are for White, negated for Black. */
  function Oriented(ss: seq<int>, whiteToMove: bool): seq<int> {
    if whiteToMove then ss else Negated(ss)
  }

  function Orient(x: int, whiteToMove: bool): int {
    if whiteToMove then x else -x
  }

  /** Minimax's value, turned like its scores, is the running maximum of
      the turned scores. */
  lemma MinMaxOriented(t: Tree, depth: nat, whiteToMove: bool)
    requires depth > 0
    ensures Orient(MinMax(t, depth, whiteToMove), whiteToMove)
            == SeqMax(-CHECKMATE, Oriented(MinMaxScores(t, depth, !whiteToMove), whiteToMove))
  {
    SeqMinIsNegatedMax(CHECKMATE, MinMaxScores(t, depth, !whiteToMove));
  }

  /** The move FindMove_MinMax records at the root: the first strict
      improvement for the side to move. */
  function MinMaxChoice(t: Tree, depth: nat, whiteToMove: bool): Option<nat>
    requires depth > 0
  {
    Choice(-CHECKMATE, Oriented(MinMaxScores(t, depth, !whiteToMove), whiteToMove))
  }

  // -------------------------------------------------------------------
  // FindBestMove: two plies, the flags of each position first

  /** The score FindBestMove gives the position after the opponent's reply,
      meant from the opponent's side: the player checkmated is CHECKMATE, a
      stalemate STALEMATE, anything else the material turned by
      -turnMultiplier. */
  function ReplyScore(gc: Tree, turnMultiplier: int): int {
    if gc.checkmate then CHECKMATE
    else if gc.stalemate then STALEMATE
    else -turnMultiplier * ScoreMaterial(gc.board)
  }

  function ReplyScores(c: Tree, turnMultiplier: int): (ss: seq<int>)
    ensures |ss| == |c.branches|
  {
    seq(|c.branches|, j requires 0 <= j < |c.branches| => ReplyScore(c.branches[j].child, turnMultiplier))
  }

  /** opponent_max_score after one move of the player: STALEMATE or
      -CHECKMATE when the opponent has no move, otherwise the best reply. */
  function OpponentBest(c: Tree, turnMultiplier: int): int {
    if c.stalemate then STALEMATE
    else if c.checkmate then -CHECKMATE
    else SeqMax(-CHECKMATE, ReplyScores(c, turnMultiplier))
  }

  function OpponentScores(t: Tree, turnMultiplier: int): (ss: seq<int>)
    ensures |ss| == |t.branches|
  {
    seq(|t.branches|, i requires 0 <= i < |t.branches| => OpponentBest(t.branches[i].child, turnMultiplier))
  }

  /** best_player_move: the first move strictly lowering the opponent's
      best score below CHECKMATE. */
  function PlayerChoice(t: Tree, turnMultiplier: int): Option<nat> {
    Choice(-CHECKMATE, Negated(OpponentScores(t, turnMultiplier)))
  }

  /** turn_multiplier as ChessAI.py line 25 sets it: -1 when White is to
      move. The scores for checkmate and stalemate are the opponent's, but
      this turns the material into the player's own. */
  function WrittenMultiplier(whiteToMove: bool): (m: int)
    ensures m == -Sign(whiteToMove)
  {
    if whiteToMove then -1 else 1
  }

  /** FindBestMove, with the material seen from the opponent's side like the
      other scores: turn_multiplier is 1 when White is to move. Each move is
      made and undone, and so is each reply. */
  method FindBestMove(g: Game, validMoves: seq<Move>) returns (best: Option<Move>)
    requires g.Valid() && validMoves == MoveList(g.Current())
    modifies g`log
    ensures g.log == old(g.log)
    ensures var t := old(g.Current()); best == Chosen(t, PlayerChoice(t, Sign(t.whiteToMove)), None)
  {
    ghost var t := g.Current();
    var turnMultiplier := if g.Current().whiteToMove then 1 else -1;
    ghost var os := Negated(OpponentScores(t, turnMultiplier));
    var opponentMinMaxScore := CHECKMATE;
    best := None;
    for i := 0 to |validMoves|
      invariant g.Valid() && g.log == old(g.log)
      invariant -opponentMinMaxScore == SeqMax(-CHECKMATE, os[..i])
      invariant best == Chosen(t, Choice(-CHECKMATE, os[..i]), None)
    {
      ChoiceStep(-CHECKMATE, os, i);
      var opponentMaxScore := OpponentMove(g, i, turnMultiplier);
      if opponentMaxScore < opponentMinMaxScore {
        opponentMinMaxScore := opponentMaxScore;
        best := Some(validMoves[i]);
      }
    }
    assert os[..|validMoves|] == os;
  }

  /** One move of the player in FindBestMove and the opponent's best reply
      to it. */
  method OpponentMove(g: Game, i: nat, turnMultiplier: int) returns (score: int)
    requires g.Valid() && i < |g.Current().branches|
    modifies g`log
    ensures g.log == old(g.log)
    ensures score == OpponentScores(old(g.Current()), turnMultiplier)[i]
  {
    ghost var c := g.Current().branches[i].child;
    g.MakeMove(i);
    var opponentMoves := g.GetValidMoves();
    var here := g.Current();
    if here.stalemate {
      score := STALEMATE;
    } else if here.checkmate {
      score := -CHECKMATE;
    } else {
      ghost var rs := ReplyScores(c, turnMultiplier);
      score := -CHECKMATE;
      for j := 0 to |opponentMoves|
        invariant g.Valid() && g.log == Then(old(g.log), i)
        invariant score == SeqMax(-CHECKMATE, rs[..j])
      {
        MaxStep(-CHECKMATE, rs, j);
        var s := ReplyAt(g, j, turnMultiplier);
        if s > score {
          score := s;
        }
      }
      assert rs[..|opponentMoves|] == rs;
    }
    g.UndoMove();
  }

  /** One reply of the opponent in FindBestMove, scored and undone. */
  method ReplyAt(g: Game, j: nat, turnMultiplier: int) returns (score: int)
    requires g.Valid() && j < |g.Current().branches|
    modifies g`log
    ensures g.log == old(g.log)
    ensures score == ReplyScore(old(g.Current()).branches[j].child, turnMultiplier)
  {
    g.MakeMove(j);
    var _ := g.GetValidMoves();
    var here := g.Current();
    if here.checkmate {
      score := CHECKMATE;
    } else if here.stalemate {
      score := STALEMATE;
    } else {
      score := -turnMultiplier * ScoreMaterial(here.board);
    }
    g.UndoMove();
  }

  /** A position two plies deep as FindBestMove meets it: no move of the
      player stalemates the opponent, a checkmated opponent has no moves,
      and after each reply the player is to move again. */
  predicate Settled(t: Tree) {
    forall i :: 0 <= i < |t.branches| ==>
      && !t.branches[i].child.stalemate
      && (t.branches[i].child.checkmate ==> t.branches[i].child.branches == [])
      && forall j :: 0 <= j < |t.branches[i].child.branches| ==>
           t.branches[i].child.branches[j].child.whiteToMove == t.whiteToMove
  }

  /** With the material seen from the opponent's side, FindBestMove chooses
      the move a negamax search of depth 2 chooses. */
  lemma FindBestMoveIsNegaMax(t: Tree)
    requires Settled(t)
    ensures PlayerChoice(t, Sign(t.whiteToMove)) == Choice(-CHECKMATE, NegaScores(t, 2, Sign(t.whiteToMove), Leaf))
  {
    var turn := Sign(t.whiteToMove);
    var ns := NegaScores(t, 2, turn, Leaf);
    var os := Negated(OpponentScores(t, turn));
    forall i | 0 <= i < |t.branches|
      ensures os[i] == ns[i]
    {
      var c := t.branches[i].child;
      assert ns[i] == -SeqMax(-CHECKMATE, NegaScores(c, 1, -turn, Leaf));
      if c.checkmate {
        assert NegaScores(c, 1, -turn, Leaf) == [];
      } else {
        var rs := ReplyScores(c, turn);
        var cs := NegaScores(c, 1, -turn, Leaf);
        forall j | 0 <= j < |c.branches|
          ensures rs[j] == cs[j]
        {
          var gc := c.branches[j].child;
          assert cs[j] == -NegaMax(gc, 0, turn, Leaf);
          if t.whiteToMove {
            assert cs[j] == -Leaf(gc);
          } else {
            assert cs[j] == Leaf(gc);
          }
        }
        assert rs == cs;
      }
    }
    assert os == ns;
  }

  /** A grid with a single white knight: White is a knight up. */
  function KnightUp(): (b: Grid)
    ensures ScoreMaterial(b) == 3
  {
    var b := Put(EmptyGrid(), 0, 0, Occupied(White, Knight));
    NothingOnEmptyGrid();
    PutSum(EmptyGrid(), 0, 0, Occupied(White, Knight), Material);
    b
  }

  lemma NothingOnEmptyGrid()
    ensures ScoreMaterial(EmptyGrid()) == 0
  {
    Bookkeeping.EmptiedSum(EmptyGrid(), Material);
  }

  /** White to move with two moves, each answered by a single quiet reply:
      after the first the material is even, after the second White is a
      knight up. */
  function TwoChoices(m: Move): (t: Tree)
    ensures |t.branches| == 2
  {
    var even := Node(EmptyGrid(), true, false, false, []);
    var up := Node(KnightUp(), true, false, false, []);
    var first := Node(EmptyGrid(), false, false, false, [Branch(m, even)]);
    var second := Node(EmptyGrid(), false, false, false, [Branch(m, up)]);
    Node(EmptyGrid(), true, false, false, [Branch(m, first), Branch(m, second)])
  }

  /** A move the opponent answers with a single quiet reply is worth that
      reply's material to the opponent. */
  lemma SingleQuietReply(c: Tree, turnMultiplier: int)
    requires !c.stalemate && !c.checkmate && |c.branches| == 1
    requires !c.branches[0].child.checkmate && !c.branches[0].child.stalemate
    requires -turnMultiplier * ScoreMaterial(c.branches[0].child.board) > -CHECKMATE
    ensures OpponentBest(c, turnMultiplier) == -turnMultiplier * ScoreMaterial(c.branches[0].child.board)
  {
    var rs := ReplyScores(c, turnMultiplier);
    MaxStep(-CHECKMATE, rs, 0);
    assert rs[..0] == [] && rs[..1] == rs;
    assert rs[0] == ReplyScore(c.branches[0].child, turnMultiplier);
  }

  /** The first strict improvement among two scores. */
  lemma ChoiceOfTwo(x: int, y: int)
    requires x > -CHECKMATE && y > -CHECKMATE
    ensures Choice(-CHECKMATE, [x, y]) == if y > x then Some(1) else Some(0)
  {
    assert [x, y][..1] == [x] && [x][..0] == [];
  }

  /** With the multiplier as written, FindBestMove takes the first move,
      though the second leaves White a knight up and the corrected
      multiplier, like negamax, takes it. */
  lemma WrittenMultiplierMisjudges(m: Move)
    ensures var t := TwoChoices(m);
            && PlayerChoice(t, WrittenMultiplier(t.whiteToMove)) == Some(0)
            && PlayerChoice(t, Sign(t.whiteToMove)) == Some(1)
            && NegaScores(t, 2, Sign(t.whiteToMove), Leaf) == [0, 3]
  {
    var t := TwoChoices(m);
    NothingOnEmptyGrid();
    var first, second := t.branches[0].child, t.branches[1].child;
    SingleQuietReply(first, -1);
    SingleQuietReply(second, -1);
    SingleQuietReply(first, 1);
    SingleQuietReply(second, 1);
    assert Negated(OpponentScores(t, -1)) == [0, -3];
    assert Negated(OpponentScores(t, 1)) == [0, 3];
    ChoiceOfTwo(0, -3);
    ChoiceOfTwo(0, 3);
    FindBestMoveIsNegaMax(t);
  }
}
