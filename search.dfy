/**
 * The plain alpha-beta search of ai/search.py: minimax over the legal moves
 * of the side to move, searching each child on a copy of the board, with a
 * leaf score taken from the side to move at the leaf.
 */
module Search {
  import opened Wrappers
  import opened Constants
  import opened Grids
  import opened Legality
  import opened Boards
  import opened Rules
  import opened Evaluation

  /** The score of a won or lost game. */
  const MATE: int := 999999

  function Max(a: int, b: int): int { if a >= b then a else b }
  function Min(a: int, b: int): int { if a <= b then a else b }

  /**
   * The value minimax_search computes when no branch is pruned: the
   * evaluation from the side to move at depth 0, -MATE when the game is over
   * or there is no move, otherwise the largest (maximizing) or smallest
   * child value.
   */
  function Minimax(g: Grid, side: int, depth: nat, maximizing: bool): (v: int)
    requires WellFormed(g)
    ensures -MATE <= v <= MATE
    decreases depth, 3
  {
    if depth == 0 then
      EvaluateBounded(g, side);
      Evaluate(g, side)
    else InnerValue(g, side, depth, maximizing)
  }

  /** Minimax below depth 0: a finished game, no move, or the best child. */
  function InnerValue(g: Grid, side: int, depth: nat, maximizing: bool): (v: int)
    requires WellFormed(g) && depth >= 1
    ensures -MATE <= v <= MATE
    decreases depth, 2
  {
    if GameResult(g, side).Some? then
      (if GameResult(g, side).value == side then MATE else -MATE)
    else
      var moves := AllMoves(g, side);
      if moves == [] then -MATE
      else if maximizing then MaxOf(ChildValues(g, side, depth, moves, false), |moves|)
      else MinOf(ChildValues(g, side, depth, moves, true), |moves|)
  }

  /** The value of the child reached by move m, searched with the other side to move. */
  function ChildValue(g: Grid, side: int, depth: nat, m: Move, childMaximizing: bool): (v: int)
    requires WellFormed(g) && depth >= 1
    ensures -MATE <= v <= MATE
    decreases depth, 0
  {
    MovePreservesWellFormed(g, m);
    Minimax(MovedGrid(g, m), -side, depth - 1, childMaximizing)
  }

  /** The values of the children, in move order. */
  function ChildValues(g: Grid, side: int, depth: nat, moves: seq<Move>, childMaximizing: bool): (vs: seq<int>)
    requires WellFormed(g) && depth >= 1
    ensures |vs| == |moves| && InRange(vs)
    decreases depth, 1, |moves|
  {
    if moves == [] then []
    else
      ChildValues(g, side, depth, moves[..|moves| - 1], childMaximizing)
      + [ChildValue(g, side, depth, moves[|moves| - 1], childMaximizing)]
  }

  /** The j-th child value is the value of the child reached by the j-th move. */
  lemma {:induction false} ChildValuesAt(g: Grid, side: int, depth: nat, moves: seq<Move>, childMaximizing: bool, j: nat)
    requires WellFormed(g) && depth >= 1 && j < |moves|
    ensures ChildValues(g, side, depth, moves, childMaximizing)[j] == ChildValue(g, side, depth, moves[j], childMaximizing)
    decreases |moves|
  {
    if j < |moves| - 1 {
      ChildValuesAt(g, side, depth, moves[..|moves| - 1], childMaximizing, j);
    }
  }

  /** Scores all lie in [-MATE, MATE]. */
  predicate InRange(vals: seq<int>)
  {
    forall j :: 0 <= j < |vals| ==> -MATE <= vals[j] <= MATE
  }

  /** max_eval after the first n children of a maximizing node, from its start value -MATE. */
  function MaxOf(vals: seq<int>, n: nat): (v: int)
    requires n <= |vals|
    ensures InRange(vals) ==> -MATE <= v <= MATE
  {
    if n == 0 then -MATE else Max(MaxOf(vals, n - 1), vals[n - 1])
  }

  /** min_eval after the first n children of a minimizing node, from its start value MATE. */
  function MinOf(vals: seq<int>, n: nat): (v: int)
    requires n <= |vals|
    ensures InRange(vals) ==> -MATE <= v <= MATE
  {
    if n == 0 then MATE else Min(MinOf(vals, n - 1), vals[n - 1])
  }

  /**
   * The fail-soft contract of alpha-beta: a result inside the window is the
   * exact value, one at or below alpha bounds the value from above, one at
   * or above beta bounds it from below.
   */
  predicate FailSoft(r: int, v: int, alpha: int, beta: int)
  {
    (r <= alpha ==> v <= r) && (r >= beta ==> v >= r) && (alpha < r < beta ==> v == r)
  }

  /** A fail-soft result for one name of a value is one for any equal value. */
  lemma SameValue(r: int, v: int, w: int, alpha: int, beta: int)
    requires alpha < beta ==> FailSoft(r, v, alpha, beta)
    requires v == w
    ensures alpha < beta ==> FailSoft(r, w, alpha, beta)
  {
  }

  /** Within the full window (-MATE, MATE) a fail-soft result is the exact value. */
  lemma FullWindowIsExact(r: int, v: int)
    requires -MATE <= v <= MATE && FailSoft(r, v, -MATE, MATE)
    ensures r == v
  {
  }

  lemma {:induction false} MaxOfMonotone(vals: seq<int>, k: nat, n: nat)
    requires k <= n <= |vals|
    ensures MaxOf(vals, k) <= MaxOf(vals, n)
    decreases n
  {
    if k < n {
      MaxOfMonotone(vals, k, n - 1);
    }
  }

  lemma {:induction false} MinOfMonotone(vals: seq<int>, k: nat, n: nat)
    requires k <= n <= |vals|
    ensures MinOf(vals, k) >= MinOf(vals, n)
    decreases n
  {
    if k < n {
      MinOfMonotone(vals, k, n - 1);
    }
  }

  /**
   * A maximizing node's value is at least every child's value and, when
   * there is a child, equals one of them.
   */
  lemma {:induction false} MaxOfIsMaximum(vals: seq<int>, n: nat)
    requires InRange(vals) && 1 <= n <= |vals|
    ensures forall j :: 0 <= j < n ==> vals[j] <= MaxOf(vals, n)
    ensures exists j :: 0 <= j < n && vals[j] == MaxOf(vals, n)
  {
    if n > 1 {
      MaxOfIsMaximum(vals, n - 1);
      if vals[n - 1] < MaxOf(vals, n - 1) {
        var j :| 0 <= j < n - 1 && vals[j] == MaxOf(vals, n - 1);
        assert vals[j] == MaxOf(vals, n);
      } else {
        assert vals[n - 1] == MaxOf(vals, n);
      }
    } else {
      assert vals[0] == MaxOf(vals, 1);
    }
  }

  /** A minimizing node's value is at most every child's value and equals one of them. */
  lemma {:induction false} MinOfIsMinimum(vals: seq<int>, n: nat)
    requires InRange(vals) && 1 <= n <= |vals|
    ensures forall j :: 0 <= j < n ==> MinOf(vals, n) <= vals[j]
    ensures exists j :: 0 <= j < n && vals[j] == MinOf(vals, n)
  {
    if n > 1 {
      MinOfIsMinimum(vals, n - 1);
      if vals[n - 1] > MinOf(vals, n - 1) {
        var j :| 0 <= j < n - 1 && vals[j] == MinOf(vals, n - 1);
        assert vals[j] == MinOf(vals, n);
      } else {
        assert vals[n - 1] == MinOf(vals, n);
      }
    } else {
      assert vals[0] == MinOf(vals, 1);
    }
  }

  /**
   * A finished game scores -MATE: the winner get_game_result names is never
   * the side to move, so the +MATE branch is never taken.
   */
  lemma GameOverIsLoss(g: Grid, side: int, depth: nat, maximizing: bool)
    requires WellFormed(g) && side in {RED, BLACK} && depth >= 1
    requires AllMoves(g, side) == []
    ensures Minimax(g, side, depth, maximizing) == -MATE
  {
    GameResultExact(g, side);
  }

  /**
   * At depth 1 a child is scored by the evaluation from the opponent's
   * side, which is the negated evaluation from the mover's side.
   */
  lemma DepthOneChildIsOpponentView(g: Grid, side: int, m: Move)
    requires WellFormed(g) && side in {RED, BLACK}
    ensures WellFormed(MovedGrid(g, m))
    ensures ChildValue(g, side, 1, m, false) == -Evaluate(MovedGrid(g, m), side)
  {
    MovePreservesWellFormed(g, m);
    EvaluateAntisymmetric(MovedGrid(g, m));
  }

  // ----- The perspective the search evidently intends -----

  /**
   * Minimax with every terminal scored from the side of the maximizing
   * player (the side to move at a maximizing node, its opponent at a
   * minimizing one): the leaf is that side's evaluation, a win for that side
   * is MATE and a side to move without moves loses.
   */
  function CorrectedMinimax(g: Grid, side: int, depth: nat, maximizing: bool): int
    requires WellFormed(g)
    decreases depth, 1
  {
    var maxSide := if maximizing then side else -side;
    if depth == 0 then Evaluate(g, maxSide)
    else if GameResult(g, side).Some? then
      (if GameResult(g, side).value == maxSide then MATE else -MATE)
    else
      var moves := AllMoves(g, side);
      if moves == [] then (if maximizing then -MATE else MATE)
      else
        var vals := CorrectedChildValues(g, side, depth, moves, !maximizing);
        if maximizing then MaxOf(vals, |vals|) else MinOf(vals, |vals|)
  }

  function CorrectedChildValues(g: Grid, side: int, depth: nat, moves: seq<Move>, childMaximizing: bool): (vs: seq<int>)
    requires WellFormed(g) && depth >= 1
    ensures |vs| == |moves|
    decreases depth, 0
  {
    seq(|moves|, j requires 0 <= j < |moves| =>
      MovePreservesWellFormed(g, moves[j]);
      CorrectedMinimax(MovedGrid(g, moves[j]), -side, depth - 1, childMaximizing))
  }

  /** At depth 1 the corrected search scores each child by the mover's own evaluation. */
  lemma CorrectedDepthOneIsMoverView(g: Grid, side: int, m: Move)
    requires WellFormed(g) && side in {RED, BLACK}
    ensures WellFormed(MovedGrid(g, m))
    ensures CorrectedChildValues(g, side, 1, [m], false)[0] == Evaluate(MovedGrid(g, m), side)
  {
    MovePreservesWellFormed(g, m);
  }

  /** The best of a list is the negation of the worst of its negation. */
  lemma {:induction false} MaxOfNegated(vs: seq<int>, ws: seq<int>, n: nat)
    requires n <= |vs| == |ws|
    requires forall j :: 0 <= j < |vs| ==> ws[j] == -vs[j]
    ensures MaxOf(vs, n) == -MinOf(ws, n)
  {
    if n > 0 {
      MaxOfNegated(vs, ws, n - 1);
    }
  }

  /**
   * With one fixed perspective the search is zero-sum: a position's value
   * for the maximizing player is the negation of its value when the same
   * side to move is minimizing. The search as written breaks this at every
   * leaf, where it ignores which player is maximizing.
   */
  lemma {:induction false} CorrectedZeroSum(g: Grid, side: int, depth: nat)
    requires WellFormed(g) && side in {RED, BLACK}
    ensures CorrectedMinimax(g, side, depth, true) == -CorrectedMinimax(g, side, depth, false)
    decreases depth, 1
  {
    if depth == 0 {
      EvaluateAntisymmetric(g);
    } else if GameResult(g, side).Some? {
      GameResultExact(g, side);
    } else if AllMoves(g, side) != [] {
      var moves := AllMoves(g, side);
      var vs := CorrectedChildValues(g, side, depth, moves, false);
      var ws := CorrectedChildValues(g, side, depth, moves, true);
      CorrectedChildrenNegated(g, side, depth, moves);
      MaxOfNegated(vs, ws, |moves|);
    }
  }

  /** The children of a node, valued for either player, are negations of each other. */
  lemma {:induction false} CorrectedChildrenNegated(g: Grid, side: int, depth: nat, moves: seq<Move>)
    requires WellFormed(g) && side in {RED, BLACK} && depth >= 1
    ensures forall j :: 0 <= j < |moves| ==>
              CorrectedChildValues(g, side, depth, moves, true)[j] == -CorrectedChildValues(g, side, depth, moves, false)[j]
    decreases depth, 0
  {
    var vs := CorrectedChildValues(g, side, depth, moves, false);
    var ws := CorrectedChildValues(g, side, depth, moves, true);
    forall j | 0 <= j < |moves|
      ensures ws[j] == -vs[j]
    {
      MovePreservesWellFormed(g, moves[j]);
      CorrectedZeroSum(MovedGrid(g, moves[j]), -side, depth - 1);
    }
  }

  /** As written, the leaf score ignores which player is maximizing. */
  lemma LeafIgnoresMaximizing(g: Grid, side: int)
    requires WellFormed(g)
    ensures Minimax(g, side, 0, true) == Minimax(g, side, 0, false) == Evaluate(g, side)
  {
  }

  // ----- The search as written -----

  /** The move loop of minimax_search: every legal target of every piece of the side to move. */
  method CollectMoves(board: Board, ruleEngine: RuleEngine) returns (allMoves: seq<Move>)
    requires board.Valid() && ruleEngine.board == board
    ensures allMoves == AllMoves(board.grid, board.currentPlayer)
  {
    var pieces := board.GetAllPieces(board.currentPlayer);
    ghost var froms := Origins(pieces);
    ghost var lists := TargetLists(board.grid, pieces);
    allMoves := [];
    for i := 0 to |pieces|
      invariant allMoves == Flatten(froms, lists, i)
    {
      var legalMoves := ruleEngine.GetLegalMoves(pieces[i].row, pieces[i].col);
      assert lists[i] == legalMoves;
      allMoves := AppendMoves(allMoves, Square(pieces[i].row, pieces[i].col), legalMoves);
    }
  }

  /** The inner loop of minimax_search's move collection: one move per target of one piece. */
  method AppendMoves(moves: seq<Move>, from: Square, targets: seq<Square>) returns (allMoves: seq<Move>)
    ensures allMoves == moves + MovesTo(from, targets)
  {
    allMoves := moves;
    for j := 0 to |targets|
      invariant allMoves == moves + MovesTo(from, targets[..j])
    {
      assert targets[..j + 1][..j] == targets[..j];
      allMoves := allMoves + [Move(from, targets[j])];
    }
    assert targets[..|targets|] == targets;
  }

  /**
   * minimax_search. The caller's board is left as it was (the method
   * modifies nothing: every child is searched on a fresh copy). Within the
   * window (alpha, beta) the result is fail-soft against Minimax; a move is
   * returned only if it is legal, and inside the window it leads to a child
   * whose value is the result.
   */
  method MinimaxSearch(board: Board, depth: int, alpha: int, beta: int, maximizing: bool)
    returns (score: int, bestMove: Option<Move>)
    requires board.Valid() && depth >= 0
    ensures -MATE <= score <= MATE
    ensures alpha < beta ==> FailSoft(score, Minimax(board.grid, board.currentPlayer, depth, maximizing), alpha, beta)
    ensures bestMove.Some? ==> depth >= 1 && bestMove.value in AllMoves(board.grid, board.currentPlayer)
    ensures bestMove.Some? && alpha < beta ==>
      FailSoft(score, ChildValue(board.grid, board.currentPlayer, depth, bestMove.value, !maximizing), alpha, beta)
    ensures bestMove.None? && depth >= 1 ==> score == -MATE || (!maximizing && score == MATE)
    ensures bestMove.Some? && maximizing ==> -MATE < score
    ensures bestMove.Some? && !maximizing ==> score < MATE
    ensures bestMove.Some? && maximizing && alpha < score && alpha < beta ==>
      var moves := AllMoves(board.grid, board.currentPlayer);
      exists k :: 0 <= k < |moves| && moves[k] == bestMove.value
        && FirstAbove(ChildValues(board.grid, board.currentPlayer, depth, moves, false), k)
    ensures bestMove.Some? && !maximizing && score < beta && alpha < beta ==>
      var moves := AllMoves(board.grid, board.currentPlayer);
      exists k :: 0 <= k < |moves| && moves[k] == bestMove.value
        && FirstBelow(ChildValues(board.grid, board.currentPlayer, depth, moves, true), k)
    decreases depth, 2
  {
    var ruleEngine := new RuleEngine(board);
    if depth == 0 {
      score := EvaluateBoard(board, board.currentPlayer);
      EvaluateBounded(board.grid, board.currentPlayer);
      return score, None;
    }
    var result := ruleEngine.GetGameResult();
    GameResultExact(board.grid, board.currentPlayer);
    if result.Some? {
      if result.value == board.currentPlayer {
        return MATE, None;
      } else {
        return -MATE, None;
      }
    }
    var allMoves := CollectMoves(board, ruleEngine);
    if allMoves == [] {
      return -MATE, None;
    }
    if maximizing {
      assert Minimax(board.grid, board.currentPlayer, depth, maximizing)
        == MaxOf(ChildValues(board.grid, board.currentPlayer, depth, allMoves, false), |allMoves|);
      score, bestMove := SearchMax(board, depth, alpha, beta, allMoves);
    } else {
      assert Minimax(board.grid, board.currentPlayer, depth, maximizing)
        == MinOf(ChildValues(board.grid, board.currentPlayer, depth, allMoves, true), |allMoves|);
      score, bestMove := SearchMin(board, depth, alpha, beta, allMoves);
    }
  }

  /**
   * The invariant of the maximizing loop after i children, on scores alone:
   * alpha is the window's lower end raised by max_eval, max_eval is
   * fail-soft against the best of the first i child values, and the best
   * child (if any) is the one max_eval came from, the first child to score
   * above every child before it once max_eval is above alpha0.
   */
  predicate MaxInv(vals: seq<int>, i: nat, alpha0: int, beta: int, maxEval: int, alpha: int,
                   hasBest: bool, best: nat)
  {
    InRange(vals) && i <= |vals| && -MATE <= maxEval <= MATE
    && alpha == (if i == 0 then alpha0 else Max(alpha0, maxEval))
    && (i == 0 ==> maxEval == -MATE)
    && (i > 0 ==> alpha < beta)
    && (alpha0 < beta ==> (maxEval <= alpha0 ==> MaxOf(vals, i) <= maxEval))
    && (alpha0 < beta ==> (alpha0 < maxEval ==> MaxOf(vals, i) == maxEval))
    && (hasBest <==> maxEval != -MATE)
    && (hasBest ==> best < i)
    && (hasBest && alpha0 < beta ==> FailSoft(maxEval, vals[best], alpha0, beta))
    && (hasBest && alpha0 < beta && alpha0 < maxEval ==> FirstAbove(vals, best))
  }

  /** What the maximizing loop promises when it ends, by exhaustion or by a cutoff. */
  predicate MaxExit(vals: seq<int>, alpha0: int, beta: int, maxEval: int, hasBest: bool, best: nat)
  {
    -MATE <= maxEval <= MATE
    && (alpha0 < beta ==> FailSoft(maxEval, MaxOf(vals, |vals|), alpha0, beta))
    && (hasBest <==> maxEval != -MATE)
    && (hasBest ==> best < |vals|)
    && (hasBest && alpha0 < beta ==> FailSoft(maxEval, vals[best], alpha0, beta))
    && (hasBest && alpha0 < beta && alpha0 < maxEval ==> FirstAbove(vals, best))
  }

  /**
   * A child that raises max_eval above alpha0 scores above every earlier
   * child: it did not fail low, while every earlier child failed low or was
   * exact, so its value is at most the old max_eval.
   */
  lemma MaxNewBestIsFirst(vals: seq<int>, i: nat, alpha0: int, beta: int, maxEval: int, alpha: int,
                          hasBest: bool, best: nat, r: int)
    requires MaxInv(vals, i, alpha0, beta, maxEval, alpha, hasBest, best)
    requires i < |vals| && alpha0 < beta && alpha0 < r && maxEval < r
    requires alpha < beta ==> FailSoft(r, vals[i], alpha, beta)
    ensures FirstAbove(vals, i)
  {
  }

  /**
   * One turn of the maximizing loop: the child returned r, fail-soft against
   * its value vals[i] in the window it was given, and max_eval, alpha and
   * the best child are updated as the loop does. Either the invariant holds
   * for i + 1 children, or the cutoff fires and the exit promise holds.
   */
  lemma MaxStep(vals: seq<int>, i: nat, alpha0: int, beta: int, maxEval: int, alpha: int,
                hasBest: bool, best: nat, r: int,
                maxEval': int, alpha': int, hasBest': bool, best': nat)
    requires MaxInv(vals, i, alpha0, beta, maxEval, alpha, hasBest, best)
    requires i < |vals| && -MATE <= r <= MATE
    requires alpha < beta ==> FailSoft(r, vals[i], alpha, beta)
    requires maxEval' == (if r > maxEval then r else maxEval)
    requires best' == (if r > maxEval then i else best)
    requires hasBest' == (hasBest || r > maxEval)
    requires alpha' == Max(alpha, r)
    ensures alpha' < beta ==> MaxInv(vals, i + 1, alpha0, beta, maxEval', alpha', hasBest', best')
    ensures beta <= alpha' ==> MaxExit(vals, alpha0, beta, maxEval', hasBest', best')
  {
    if r > maxEval && alpha0 < beta && alpha0 < r {
      MaxNewBestIsFirst(vals, i, alpha0, beta, maxEval, alpha, hasBest, best, r);
    }
    assert MaxOf(vals, i + 1) == Max(MaxOf(vals, i), vals[i]);
    if beta <= alpha' {
      MaxOfMonotone(vals, i + 1, |vals|);
    }
  }

  /** A maximizing loop that ran through every child keeps its exit promise. */
  lemma MaxDone(vals: seq<int>, alpha0: int, beta: int, maxEval: int, alpha: int, hasBest: bool, best: nat)
    requires |vals| > 0 && MaxInv(vals, |vals|, alpha0, beta, maxEval, alpha, hasBest, best)
    ensures MaxExit(vals, alpha0, beta, maxEval, hasBest, best)
  {
  }

  /** Child k scores strictly above the best child before it: the first to reach its value. */
  predicate FirstAbove(vals: seq<int>, k: int)
  {
    0 <= k < |vals| && (k == 0 || MaxOf(vals, k) < vals[k])
  }

  /** Child k scores strictly below the best child before it. */
  predicate FirstBelow(vals: seq<int>, k: int)
  {
    0 <= k < |vals| && (k == 0 || vals[k] < MinOf(vals, k))
  }

  /** FirstAbove means every earlier child scores strictly less. */
  lemma FirstAboveIsStrict(vals: seq<int>, k: int)
    requires InRange(vals) && FirstAbove(vals, k)
    ensures forall j :: 0 <= j < k ==> vals[j] < vals[k]
  {
    if k > 0 {
      MaxOfIsMaximum(vals, k);
    }
  }

  /** FirstBelow means every earlier child scores strictly more. */
  lemma FirstBelowIsStrict(vals: seq<int>, k: int)
    requires InRange(vals) && FirstBelow(vals, k)
    ensures forall j :: 0 <= j < k ==> vals[j] > vals[k]
  {
    if k > 0 {
      MinOfIsMinimum(vals, k);
    }
  }

  /** The invariant of the minimizing loop, the mirror image of MaxInv. */
  predicate MinInv(vals: seq<int>, i: nat, alpha: int, beta0: int, minEval: int, beta: int,
                   hasBest: bool, best: nat)
  {
    InRange(vals) && i <= |vals| && -MATE <= minEval <= MATE
    && beta == (if i == 0 then beta0 else Min(beta0, minEval))
    && (i == 0 ==> minEval == MATE)
    && (i > 0 ==> alpha < beta)
    && (alpha < beta0 ==> (minEval >= beta0 ==> MinOf(vals, i) >= minEval))
    && (alpha < beta0 ==> (minEval < beta0 ==> MinOf(vals, i) == minEval))
    && (hasBest <==> minEval != MATE)
    && (hasBest ==> best < i)
    && (hasBest && alpha < beta0 ==> FailSoft(minEval, vals[best], alpha, beta0))
    && (hasBest && alpha < beta0 && minEval < beta0 ==> FirstBelow(vals, best))
  }

  /** What the minimizing loop promises when it ends. */
  predicate MinExit(vals: seq<int>, alpha: int, beta0: int, minEval: int, hasBest: bool, best: nat)
  {
    -MATE <= minEval <= MATE
    && (alpha < beta0 ==> FailSoft(minEval, MinOf(vals, |vals|), alpha, beta0))
    && (hasBest <==> minEval != MATE)
    && (hasBest ==> best < |vals|)
    && (hasBest && alpha < beta0 ==> FailSoft(minEval, vals[best], alpha, beta0))
    && (hasBest && alpha < beta0 && minEval < beta0 ==> FirstBelow(vals, best))
  }

  /** The mirror image of MaxNewBestIsFirst for the minimizing loop. */
  lemma MinNewBestIsFirst(vals: seq<int>, i: nat, alpha: int, beta0: int, minEval: int, beta: int,
                          hasBest: bool, best: nat, r: int)
    requires MinInv(vals, i, alpha, beta0, minEval, beta, hasBest, best)
    requires i < |vals| && alpha < beta0 && r < beta0 && r < minEval
    requires alpha < beta ==> FailSoft(r, vals[i], alpha, beta)
    ensures FirstBelow(vals, i)
  {
  }

  /** One turn of the minimizing loop, the mirror image of MaxStep. */
  lemma MinStep(vals: seq<int>, i: nat, alpha: int, beta0: int, minEval: int, beta: int,
                hasBest: bool, best: nat, r: int,
                minEval': int, beta': int, hasBest': bool, best': nat)
    requires MinInv(vals, i, alpha, beta0, minEval, beta, hasBest, best)
    requires i < |vals| && -MATE <= r <= MATE
    requires alpha < beta ==> FailSoft(r, vals[i], alpha, beta)
    requires minEval' == (if r < minEval then r else minEval)
    requires best' == (if r < minEval then i else best)
    requires hasBest' == (hasBest || r < minEval)
    requires beta' == Min(beta, r)
    ensures alpha < beta' ==> MinInv(vals, i + 1, alpha, beta0, minEval', beta', hasBest', best')
    ensures beta' <= alpha ==> MinExit(vals, alpha, beta0, minEval', hasBest', best')
  {
    if r < minEval && alpha < beta0 && r < beta0 {
      MinNewBestIsFirst(vals, i, alpha, beta0, minEval, beta, hasBest, best, r);
    }
    assert MinOf(vals, i + 1) == Min(MinOf(vals, i), vals[i]);
    if beta' <= alpha {
      MinOfMonotone(vals, i + 1, |vals|);
    }
  }

  /** A minimizing loop that ran through every child keeps its exit promise. */
  lemma MinDone(vals: seq<int>, alpha: int, beta0: int, minEval: int, beta: int, hasBest: bool, best: nat)
    requires |vals| > 0 && MinInv(vals, |vals|, alpha, beta0, minEval, beta, hasBest, best)
    ensures MinExit(vals, alpha, beta0, minEval, hasBest, best)
  {
  }

  /** What a maximizing loop's exit promise says about the moves and their children. */
  lemma MaxResult(g: Grid, side: int, depth: nat, allMoves: seq<Move>, alpha0: int, beta: int,
                  maxEval: int, hasBest: bool, best: nat, bestMove: Option<Move>)
    requires WellFormed(g) && depth >= 1
    requires MaxExit(ChildValues(g, side, depth, allMoves, false), alpha0, beta, maxEval, hasBest, best)
    requires hasBest <==> bestMove.Some?
    requires bestMove.Some? ==> best < |allMoves| && bestMove.value == allMoves[best]
    ensures -MATE <= maxEval <= MATE
    ensures alpha0 < beta ==>
      FailSoft(maxEval, MaxOf(ChildValues(g, side, depth, allMoves, false), |allMoves|), alpha0, beta)
    ensures bestMove.None? <==> maxEval == -MATE
    ensures bestMove.Some? ==> bestMove.value in allMoves
    ensures bestMove.Some? && alpha0 < beta ==>
      FailSoft(maxEval, ChildValue(g, side, depth, bestMove.value, false), alpha0, beta)
    ensures bestMove.Some? && alpha0 < maxEval && alpha0 < beta ==>
      exists k :: 0 <= k < |allMoves| && allMoves[k] == bestMove.value
        && FirstAbove(ChildValues(g, side, depth, allMoves, false), k)
  {
    if bestMove.Some? {
      ChildValuesAt(g, side, depth, allMoves, false, best);
    }
  }

  /** What a minimizing loop's exit promise says about the moves and their children. */
  lemma MinResult(g: Grid, side: int, depth: nat, allMoves: seq<Move>, alpha: int, beta0: int,
                  minEval: int, hasBest: bool, best: nat, bestMove: Option<Move>)
    requires WellFormed(g) && depth >= 1
    requires MinExit(ChildValues(g, side, depth, allMoves, true), alpha, beta0, minEval, hasBest, best)
    requires hasBest <==> bestMove.Some?
    requires bestMove.Some? ==> best < |allMoves| && bestMove.value == allMoves[best]
    ensures -MATE <= minEval <= MATE
    ensures alpha < beta0 ==>
      FailSoft(minEval, MinOf(ChildValues(g, side, depth, allMoves, true), |allMoves|), alpha, beta0)
    ensures bestMove.None? <==> minEval == MATE
    ensures bestMove.Some? ==> bestMove.value in allMoves
    ensures bestMove.Some? && alpha < beta0 ==>
      FailSoft(minEval, ChildValue(g, side, depth, bestMove.value, true), alpha, beta0)
    ensures bestMove.Some? && minEval < beta0 && alpha < beta0 ==>
      exists k :: 0 <= k < |allMoves| && allMoves[k] == bestMove.value
        && FirstBelow(ChildValues(g, side, depth, allMoves, true), k)
  {
    if bestMove.Some? {
      ChildValuesAt(g, side, depth, allMoves, true, best);
    }
  }

  /**
   * The body of both move loops: play the i-th move on a copy of the board
   * and search the child one ply shallower in the current window.
   */
  method SearchChild(board: Board, depth: int, moves: seq<Move>, i: nat, alpha: int, beta: int, childMaximizing: bool)
    returns (r: int)
    requires board.Valid() && depth >= 1 && i < |moves|
    ensures -MATE <= r <= MATE
    ensures alpha < beta ==>
      FailSoft(r, ChildValues(board.grid, board.currentPlayer, depth, moves, childMaximizing)[i], alpha, beta)
    decreases depth, 0
  {
    var move := moves[i];
    var tempBoard := board.Copy();
    var _ := tempBoard.MovePiece(move);
    var childScore, _ := MinimaxSearch(tempBoard, depth - 1, alpha, beta, childMaximizing);
    r := childScore;
    ChildValuesAt(board.grid, board.currentPlayer, depth, moves, childMaximizing, i);
  }

  /** The maximizing branch of minimax_search: raise alpha child by child, stop once beta <= alpha. */
  method SearchMax(board: Board, depth: int, alpha0: int, beta: int, allMoves: seq<Move>)
    returns (maxEval: int, bestMove: Option<Move>)
    requires board.Valid() && depth >= 1 && allMoves != []
    ensures -MATE <= maxEval <= MATE
    ensures alpha0 < beta ==>
      FailSoft(maxEval, MaxOf(ChildValues(board.grid, board.currentPlayer, depth, allMoves, false), |allMoves|), alpha0, beta)
    ensures bestMove.None? <==> maxEval == -MATE
    ensures bestMove.Some? ==> bestMove.value in allMoves
    ensures bestMove.Some? && alpha0 < beta ==>
      FailSoft(maxEval, ChildValue(board.grid, board.currentPlayer, depth, bestMove.value, false), alpha0, beta)
    ensures bestMove.Some? && alpha0 < maxEval && alpha0 < beta ==>
      exists k :: 0 <= k < |allMoves| && allMoves[k] == bestMove.value
        && FirstAbove(ChildValues(board.grid, board.currentPlayer, depth, allMoves, false), k)
    decreases depth, 1
  {
    ghost var vals := ChildValues(board.grid, board.currentPlayer, depth, allMoves, false);
    ghost var best: nat := 0;
    maxEval := -MATE;
    bestMove := None;
    var alpha := alpha0;
    var i := 0;
    while i < |allMoves|
      invariant MaxInv(vals, i, alpha0, beta, maxEval, alpha, bestMove.Some?, best)
      invariant bestMove.Some? ==> bestMove.value == allMoves[best]
    {
      var move := allMoves[i];
      var evalScore := SearchChild(board, depth, allMoves, i, alpha, beta, false);
      ghost var maxEvalBefore, alphaBefore, hasBestBefore, bestBefore := maxEval, alpha, bestMove.Some?, best;
      if evalScore > maxEval {
        maxEval := evalScore;
        bestMove := Some(move);
        best := i;
      }
      alpha := Max(alpha, evalScore);
      MaxStep(vals, i, alpha0, beta, maxEvalBefore, alphaBefore, hasBestBefore, bestBefore, evalScore,
              maxEval, alpha, bestMove.Some?, best);
      if beta <= alpha {
        break;
      }
      i := i + 1;
    }
    if i == |allMoves| {
      MaxDone(vals, alpha0, beta, maxEval, alpha, bestMove.Some?, best);
    }
    MaxResult(board.grid, board.currentPlayer, depth, allMoves, alpha0, beta, maxEval, bestMove.Some?, best, bestMove);
  }

  /** The minimizing branch of minimax_search: lower beta child by child, stop once beta <= alpha. */
  method SearchMin(board: Board, depth: int, alpha: int, beta0: int, allMoves: seq<Move>)
    returns (minEval: int, bestMove: Option<Move>)
    requires board.Valid() && depth >= 1 && allMoves != []
    ensures -MATE <= minEval <= MATE
    ensures alpha < beta0 ==>
      FailSoft(minEval, MinOf(ChildValues(board.grid, board.currentPlayer, depth, allMoves, true), |allMoves|), alpha, beta0)
    ensures bestMove.None? <==> minEval == MATE
    ensures bestMove.Some? ==> bestMove.value in allMoves
    ensures bestMove.Some? && alpha < beta0 ==>
      FailSoft(minEval, ChildValue(board.grid, board.currentPlayer, depth, bestMove.value, true), alpha, beta0)
    ensures bestMove.Some? && minEval < beta0 && alpha < beta0 ==>
      exists k :: 0 <= k < |allMoves| && allMoves[k] == bestMove.value
        && FirstBelow(ChildValues(board.grid, board.currentPlayer, depth, allMoves, true), k)
    decreases depth, 1
  {
    ghost var vals := ChildValues(board.grid, board.currentPlayer, depth, allMoves, true);
    ghost var best: nat := 0;
    minEval := MATE;
    bestMove := None;
    var beta := beta0;
    var i := 0;
    while i < |allMoves|
      invariant MinInv(vals, i, alpha, beta0, minEval, beta, bestMove.Some?, best)
      invariant bestMove.Some? ==> bestMove.value == allMoves[best]
    {
      var move := allMoves[i];
      var evalScore := SearchChild(board, depth, allMoves, i, alpha, beta, true);
      ghost var minEvalBefore, betaBefore, hasBestBefore, bestBefore := minEval, beta, bestMove.Some?, best;
      if evalScore < minEval {
        minEval := evalScore;
        bestMove := Some(move);
        best := i;
      }
      beta := Min(beta, evalScore);
      MinStep(vals, i, alpha, beta0, minEvalBefore, betaBefore, hasBestBefore, bestBefore, evalScore,
              minEval, beta, bestMove.Some?, best);
      if beta <= alpha {
        break;
      }
      i := i + 1;
    }
    if i == |allMoves| {
      MinDone(vals, alpha, beta0, minEval, beta, bestMove.Some?, best);
    }
    MinResult(board.grid, board.currentPlayer, depth, allMoves, alpha, beta0, minEval, bestMove.Some?, best, bestMove);
  }

  /**
   * get_best_move: the depth of the difficulty level (3 for an unknown one)
   * and the full window. A returned move is legal and its child's value is
   * the root's Minimax value; no move means every line scores -MATE.
   */
  method GetBestMove(board: Board, difficulty: string) returns (bestMove: Option<Move>)
    requires board.Valid()
    ensures var depth := if difficulty in DIFFICULTY_DEPTHS then DIFFICULTY_DEPTHS[difficulty] else 3;
      var root := Minimax(board.grid, board.currentPlayer, depth, true);
      (bestMove.Some? ==> bestMove.value in AllMoves(board.grid, board.currentPlayer)
                          && ChildValue(board.grid, board.currentPlayer, depth, bestMove.value, false) == root)
      && (bestMove.None? ==> root == -MATE)
    ensures var depth := if difficulty in DIFFICULTY_DEPTHS then DIFFICULTY_DEPTHS[difficulty] else 3;
      var root := Minimax(board.grid, board.currentPlayer, depth, true);
      var moves := AllMoves(board.grid, board.currentPlayer);
      bestMove.Some? ==>
        exists k :: 0 <= k < |moves| && moves[k] == bestMove.value
          && forall j :: 0 <= j < k ==> ChildValue(board.grid, board.currentPlayer, depth, moves[j], false) < root
  {
    DifficultyDepthsPositive();
    var depth := if difficulty in DIFFICULTY_DEPTHS then DIFFICULTY_DEPTHS[difficulty] else 3;
    var score;
    score, bestMove := MinimaxSearch(board, depth, -MATE, MATE, true);
    FullWindowIsExact(score, Minimax(board.grid, board.currentPlayer, depth, true));
    if bestMove.Some? {
      ghost var moves := AllMoves(board.grid, board.currentPlayer);
      ghost var vals := ChildValues(board.grid, board.currentPlayer, depth, moves, false);
      ghost var k :| 0 <= k < |moves| && moves[k] == bestMove.value && FirstAbove(vals, k);
      FirstAboveIsStrict(vals, k);
      forall j | 0 <= j < k
        ensures ChildValue(board.grid, board.currentPlayer, depth, moves[j], false) < score
      {
        ChildValuesAt(board.grid, board.currentPlayer, depth, moves, false, j);
        ChildValuesAt(board.grid, board.currentPlayer, depth, moves, false, k);
      }
    }
  }
}
