/**
 * The search engine of ai/search_engine.py: quiescence search over
 * captures, the principal-variation alpha-beta search with null-move
 * pruning, late move reductions and the transposition table, the root
 * search, and the iterative-deepening driver with aspiration windows.
 *
 * The wall clock is replaced by a stop latch that may fire at any check;
 * the network evaluation at the leaves is the engine's `evaluate`
 * function, fixed when the engine is built; the logarithmic late-move
 * reduction table is likewise a constructor argument.
 */
module Engine {
  import opened Wrappers
  import opened Constants
  import opened Grids
  import opened Legality
  import opened Boards
  import opened Rules
  import opened Zobrist
  import opened Transposition
  import opened Ordering
  import Minimax = Search

  const INFINITY: int := 999999
  const MATE_SCORE: int := 100000
  const MATE_THRESHOLD: int := MATE_SCORE - 1000
  const ASPIRATION: int := 50

  /** A 64 x 64 table of reductions, zero on row 0 and column 0. */
  predicate LmrShaped(table: seq<seq<nat>>)
  {
    |table| == 64
    && (forall d :: 0 <= d < 64 ==> |table[d]| == 64 && table[d][0] == 0)
    && (forall m :: 0 <= m < 64 ==> table[0][m] == 0)
  }

  function DepthLeft(depth: int): nat
  {
    if depth > 0 then depth else 0
  }

  /** The null-move reduction 3 + depth / 4 leaves strictly less depth to search. */
  lemma NullReductionShrinks(depth: int)
    requires depth >= 3
    ensures 3 + depth / 4 >= 3
    ensures DepthLeft(depth - 1 - (3 + depth / 4)) < DepthLeft(depth)
  {
  }

  // ----- Captures -----

  /** The moves of `moves` that land on an occupied square, in order. */
  function CapturesOf(g: Grid, moves: seq<Move>): seq<Move>
  {
    if moves == [] then []
    else
      var last := moves[|moves| - 1];
      CapturesOf(g, moves[..|moves| - 1]) + (if GetPiece(g, last.to.row, last.to.col).Some? then [last] else [])
  }

  lemma {:induction false} CapturesAppend(g: Grid, a: seq<Move>, b: seq<Move>)
    ensures CapturesOf(g, a + b) == CapturesOf(g, a) + CapturesOf(g, b)
    decreases |b|
  {
    if b == [] {
      assert a + b == a;
    } else {
      CapturesAppend(g, a, b[..|b| - 1]);
      assert (a + b)[..|a + b| - 1] == a + b[..|b| - 1];
    }
  }

  /** A capture is one of the given moves and its target is occupied. */
  lemma {:induction false} CapturesAreCaptures(g: Grid, moves: seq<Move>, m: Move)
    requires m in CapturesOf(g, moves)
    ensures m in moves && GetPiece(g, m.to.row, m.to.col).Some?
    decreases |moves|
  {
    var last := moves[|moves| - 1];
    if m in CapturesOf(g, moves[..|moves| - 1]) {
      CapturesAreCaptures(g, moves[..|moves| - 1], m);
      assert moves == moves[..|moves| - 1] + [last];
    }
  }

  /** Reordering a non-empty list of on-board moves keeps it non-empty and on the board. */
  lemma PermutedMovesInBounds(moves: seq<Move>, ordered: seq<Move>)
    requires multiset(ordered) == multiset(moves) && MovesInBounds(moves) && moves != []
    ensures MovesInBounds(ordered) && ordered != []
  {
    assert |ordered| == |multiset(ordered)| == |multiset(moves)| == |moves|;
    forall i | 0 <= i < |ordered|
      ensures IsInBounds(ordered[i].to.row, ordered[i].to.col)
    {
      assert ordered[i] in multiset(moves);
      var j :| 0 <= j < |moves| && moves[j] == ordered[i];
    }
  }

  /** The (MVV-LVA, move) list the quiescence search sorts. */
  function MvvScored(g: Grid, moves: seq<Move>): (xs: seq<Scored>)
    requires WellFormed(g)
    ensures |xs| == |moves|
    ensures forall i :: 0 <= i < |moves| ==> xs[i] == Scored(MvvLva(g, moves[i]), moves[i])
  {
    seq(|moves|, i requires 0 <= i < |moves| => Scored(MvvLva(g, moves[i]), moves[i]))
  }

  /** moves.sort(key=mvv_lva_score, reverse=True): stable, highest first, a permutation. */
  method SortByMvvLva(board: Board, moves: seq<Move>) returns (sorted: seq<Move>)
    requires WellFormed(board.grid)
    ensures sorted == MovesOf(SortDesc(MvvScored(board.grid, moves)))
    ensures multiset(sorted) == multiset(moves)
  {
    ghost var xs := MvvScored(board.grid, moves);
    var scored: seq<Scored> := [];
    for i := 0 to |moves|
      invariant scored == xs[..i]
    {
      scored := scored + [Scored(MvvLvaScore(board, moves[i]), moves[i])];
    }
    assert xs[..|moves|] == xs;
    var ordered := SortScored(scored);
    sorted := MovesFrom(ordered);
    MovesOfSortPerm(xs);
    assert MovesOf(xs) == moves;
  }

  // ----- The transposition-table flag -----

  /** The flag store is given: ALPHA at or below alpha, BETA at or above beta, EXACT between. */
  function StoredFlag(bestScore: int, alpha: int, beta: int): TTFlag
  {
    if bestScore <= alpha then Alpha else if bestScore >= beta then Beta else Exact
  }

  /**
   * (best_score, alpha) after the move loop of _search has seen the child
   * scores `scores`, stopping at the first cutoff.
   */
  function LoopResult(scores: seq<int>, best: int, alpha: int, beta: int): (int, int)
  {
    if scores == [] then (best, alpha)
    else
      var s := scores[0];
      var best' := if s > best then s else best;
      var alpha' := if s > alpha then s else alpha;
      if alpha' >= beta then (best', alpha') else LoopResult(scores[1..], best', alpha', beta)
  }

  /** The loop never lets best_score pass alpha: alpha is raised to every score that raises best_score. */
  lemma {:induction false} LoopKeepsBestBelowAlpha(scores: seq<int>, best: int, alpha: int, beta: int)
    requires best <= alpha
    ensures LoopResult(scores, best, alpha, beta).0 <= LoopResult(scores, best, alpha, beta).1
  {
    if scores != [] {
      var s := scores[0];
      var best' := if s > best then s else best;
      var alpha' := if s > alpha then s else alpha;
      if alpha' < beta {
        LoopKeepsBestBelowAlpha(scores[1..], best', alpha', beta);
      }
    }
  }

  /**
   * As written, the flag is computed against the loop's final alpha, so
   * every node whose window starts at or above -INFINITY is stored as ALPHA,
   * whatever its children scored.
   */
  lemma StoredFlagAsWrittenIsAlpha(scores: seq<int>, alpha0: int, beta: int)
    requires alpha0 >= -INFINITY
    ensures var (best, alpha) := LoopResult(scores, -INFINITY, alpha0, beta);
            StoredFlag(best, alpha, beta) == Alpha
  {
    LoopKeepsBestBelowAlpha(scores, -INFINITY, alpha0, beta);
  }

  /** A node with one child scoring inside the window (-100, 100) is stored as ALPHA, not EXACT. */
  lemma ExactNodeStoredAsAlpha()
    ensures var (best, alpha) := LoopResult([30], -INFINITY, -100, 100);
            best == 30 && StoredFlag(best, alpha, 100) == Alpha && CorrectedFlag(best, -100, 100) == Exact
  {
  }

  /** The flag the table's readers expect: the same rule, against the alpha the node was entered with. */
  function CorrectedFlag(bestScore: int, alphaOrig: int, beta: int): TTFlag
  {
    StoredFlag(bestScore, alphaOrig, beta)
  }

  lemma {:induction false} LoopFailsHighIff(scores: seq<int>, best: int, alpha: int, beta: int)
    requires alpha < beta && best < beta
    ensures LoopResult(scores, best, alpha, beta).0 >= beta <==> exists i :: 0 <= i < |scores| && scores[i] >= beta
  {
    if scores != [] {
      var s := scores[0];
      if s < beta {
        var best' := if s > best then s else best;
        var alpha' := if s > alpha then s else alpha;
        LoopFailsHighIff(scores[1..], best', alpha', beta);
        if exists i :: 0 <= i < |scores| && scores[i] >= beta {
          var i :| 0 <= i < |scores| && scores[i] >= beta;
          assert scores[1..][i - 1] == scores[i];
        }
      }
    }
  }

  lemma {:induction false} LoopFailsLowIff(scores: seq<int>, best: int, alpha: int, lo: int, beta: int)
    requires alpha < beta && lo < beta
    ensures LoopResult(scores, best, alpha, beta).0 <= lo
        <==> best <= lo && forall i :: 0 <= i < |scores| ==> scores[i] <= lo
  {
    if scores != [] {
      var s := scores[0];
      var best' := if s > best then s else best;
      var alpha' := if s > alpha then s else alpha;
      if alpha' < beta {
        LoopFailsLowIff(scores[1..], best', alpha', lo, beta);
        if best' <= lo && forall i :: 0 <= i < |scores[1..]| ==> scores[1..][i] <= lo {
          forall i | 0 <= i < |scores|
            ensures scores[i] <= lo
          {
            if i > 0 {
              assert scores[i] == scores[1..][i - 1];
            }
          }
        }
      }
    }
  }

  /**
   * Against the node's original alpha the flag means what the probe
   * assumes: BETA exactly when some child failed high, ALPHA exactly when
   * every child failed low, EXACT otherwise.
   */
  lemma CorrectedFlagClassifies(scores: seq<int>, alpha0: int, beta: int)
    requires -INFINITY <= alpha0 < beta
    ensures var best := LoopResult(scores, -INFINITY, alpha0, beta).0;
            (CorrectedFlag(best, alpha0, beta) == Beta <==> exists i :: 0 <= i < |scores| && scores[i] >= beta)
            && (CorrectedFlag(best, alpha0, beta) == Alpha <==> forall i :: 0 <= i < |scores| ==> scores[i] <= alpha0)
            && (CorrectedFlag(best, alpha0, beta) == Exact <==>
                  (exists i :: 0 <= i < |scores| && scores[i] > alpha0) && forall i :: 0 <= i < |scores| ==> scores[i] < beta)
  {
    LoopFailsHighIff(scores, -INFINITY, alpha0, beta);
    LoopFailsLowIff(scores, -INFINITY, alpha0, alpha0, beta);
  }

  // ----- The table probe in _search -----

  /** A mate score read back at distance ply from the node that stored it. */
  function MateAdjusted(score: int, ply: int): int
  {
    if score > MATE_THRESHOLD then score - ply
    else if score < -MATE_THRESHOLD then score + ply
    else score
  }

  /**
   * The cutoff a probed entry gives _search: only an entry searched at
   * least as deep; an EXACT entry gives its (mate-adjusted) score, an ALPHA
   * entry at or below alpha gives alpha, a BETA entry at or above beta
   * gives beta; anything else gives none.
   */
  function TTCut(entry: Option<TTEntry>, depth: int, alpha: int, beta: int, ply: int): (cut: Option<int>)
    ensures cut.Some? ==> entry.Some? && entry.value.depth >= depth
    ensures cut.Some? && entry.value.flag == Alpha ==> cut.value == alpha
    ensures cut.Some? && entry.value.flag == Beta ==> cut.value == beta
    ensures (entry.Some? && entry.value.depth >= depth && entry.value.flag == Exact)
              ==> cut == Some(MateAdjusted(entry.value.score, ply))
  {
    if entry.None? || entry.value.depth < depth then None
    else
      var score := MateAdjusted(entry.value.score, ply);
      if entry.value.flag == Exact then Some(score)
      else if entry.value.flag == Alpha && score <= alpha then Some(alpha)
      else if entry.value.flag == Beta && score >= beta then Some(beta)
      else None
  }

  // ----- The driver's window -----

  /** The aspiration window of iteration d: the full window at depth 1, best_score +- 50 after. */
  function AspirationWindow(d: int, bestScore: int): (w: (int, int))
    ensures d <= 1 ==> w == (-INFINITY, INFINITY)
    ensures d > 1 ==> w.0 < bestScore < w.1 && w.1 - w.0 == 2 * ASPIRATION
  {
    if d <= 1 then (-INFINITY, INFINITY) else (bestScore - ASPIRATION, bestScore + ASPIRATION)
  }

  /** A result on or outside the window's edges is only a bound and is searched again with the full window. */
  predicate NeedsResearch(score: int, alpha: int, beta: int)
  {
    score <= alpha || score >= beta
  }

  // ----- Difficulty levels -----

  datatype Difficulty = Difficulty(depth: int, timeLimit: real)

  const DIFFICULTY_CONFIG: map<string, Difficulty> := map[
    "小白" := Difficulty(2, 0.5),
    "初级" := Difficulty(3, 1.0),
    "中级" := Difficulty(4, 2.0),
    "高级" := Difficulty(5, 4.0),
    "大师" := Difficulty(6, 8.0)]

  /** DIFFICULTY_CONFIG.get(difficulty, DIFFICULTY_CONFIG['中级']). */
  function ConfigFor(difficulty: string): (c: Difficulty)
    ensures difficulty !in DIFFICULTY_CONFIG ==> c == Difficulty(4, 2.0)
    ensures 2 <= c.depth <= 6 && c.timeLimit > 0.0
  {
    if difficulty in DIFFICULTY_CONFIG then DIFFICULTY_CONFIG[difficulty] else DIFFICULTY_CONFIG["中级"]
  }

  /** Each level searches one ply deeper than the last and doubles its time. */
  lemma LevelsDeepen()
    ensures ConfigFor("小白").depth == 2 && ConfigFor("初级").depth == 3 && ConfigFor("中级").depth == 4
         && ConfigFor("高级").depth == 5 && ConfigFor("大师").depth == 6
    ensures forall a, b :: a in DIFFICULTY_CONFIG && b in DIFFICULTY_CONFIG && DIFFICULTY_CONFIG[a].depth + 1 == DIFFICULTY_CONFIG[b].depth
              ==> DIFFICULTY_CONFIG[b].timeLimit == 2.0 * DIFFICULTY_CONFIG[a].timeLimit
  {
  }

  // ----- The engine -----

  class SearchEngine {
    const tt: TranspositionTable
    const zobrist: ZobristHash
    const orderer: MoveOrderer
    /** LMR_TABLE[depth][move number]. */
    const lmrTable: seq<seq<nat>>
    /** nnue_evaluate(board, perspective) on the grid and the perspective. */
    const evaluate: (Grid, int) -> int
    var stopSearch: bool

    ghost predicate Valid()
      reads this, tt, orderer
    {
      tt.Valid() && orderer.Valid() && zobrist.Valid() && LmrShaped(lmrTable)
    }

    /** The hash key of a board, as the table sees it. */
    function KeyOf(g: Grid, player: int): int
      requires zobrist.Valid() && WellFormed(g)
    {
      BoardHash(zobrist.pieceTable, zobrist.sideToMove, g, player) as int
    }

    constructor (ttSize: int, pieceTable: map<char, seq<bv64>>, sideToMove: bv64,
                 lmrTable: seq<seq<nat>>, evaluate: (Grid, int) -> int)
      requires ttSize > 0 && KeysShaped(pieceTable) && LmrShaped(lmrTable)
      ensures Valid() && fresh(tt) && fresh(orderer) && !stopSearch
      ensures tt.table == map[] && tt.generation == 0 && tt.size == ttSize
      ensures this.lmrTable == lmrTable && this.evaluate == evaluate
    {
      tt := new TranspositionTable(ttSize);
      zobrist := new ZobristHash(pieceTable, sideToMove);
      orderer := new MoveOrderer();
      this.lmrTable := lmrTable;
      this.evaluate := evaluate;
      stopSearch := false;
    }

    /** clear: an empty table and fresh move-ordering data. */
    method Clear()
      requires Valid()
      modifies tt, orderer
      ensures Valid() && tt.table == map[] && tt.generation == 0
      ensures orderer.history == ZeroHistory() && orderer.counterMoves == map[]
    {
      tt.Clear();
      orderer.Clear();
    }

    /**
     * _should_stop: once stopped, always stopped; otherwise the time limit
     * may or may not have passed, and if it has the stop is latched.
     */
    method ShouldStop() returns (stop: bool)
      modifies this
      ensures stop == stopSearch
      ensures old(stopSearch) ==> stopSearch
    {
      if stopSearch {
        return true;
      }
      var timeUp: bool :| true;
      if timeUp {
        stopSearch := true;
        return true;
      }
      return false;
    }

    /** _generate_moves. */
    method GenerateMoves(board: Board, ruleEngine: RuleEngine) returns (moves: seq<Move>)
      requires board.Valid() && ruleEngine.board == board
      ensures moves == AllMoves(board.grid, board.currentPlayer)
    {
      moves := Minimax.CollectMoves(board, ruleEngine);
    }

    /** _generate_captures: the legal moves, in generation order, that land on a piece. */
    method GenerateCaptures(board: Board, ruleEngine: RuleEngine) returns (captures: seq<Move>)
      requires board.Valid() && ruleEngine.board == board
      ensures captures == CapturesOf(board.grid, AllMoves(board.grid, board.currentPlayer))
    {
      var pieces := board.GetAllPieces(board.currentPlayer);
      ghost var froms := Origins(pieces);
      ghost var lists := TargetLists(board.grid, pieces);
      captures := [];
      for i := 0 to |pieces|
        invariant captures == CapturesOf(board.grid, Flatten(froms, lists, i))
      {
        var legalMoves := ruleEngine.GetLegalMoves(pieces[i].row, pieces[i].col);
        assert lists[i] == legalMoves;
        CapturesAppend(board.grid, Flatten(froms, lists, i), MovesTo(froms[i], lists[i]));
        captures := AppendCaptures(board, captures, Square(pieces[i].row, pieces[i].col), legalMoves);
      }
    }

    /** The inner loop of _generate_captures: the targets of one piece that hold a piece. */
    method AppendCaptures(board: Board, captures: seq<Move>, from: Square, targets: seq<Square>)
      returns (captures': seq<Move>)
      ensures captures' == captures + CapturesOf(board.grid, MovesTo(from, targets))
    {
      captures' := captures;
      for j := 0 to |targets|
        invariant captures' == captures + CapturesOf(board.grid, MovesTo(from, targets[..j]))
      {
        assert targets[..j + 1][..j] == targets[..j];
        CapturesAppend(board.grid, MovesTo(from, targets[..j]), [Move(from, targets[j])]);
        assert CapturesOf(board.grid, [Move(from, targets[j])])
            == CapturesOf(board.grid, []) + (if GetPiece(board.grid, targets[j].row, targets[j].col).Some? then [Move(from, targets[j])] else []);
        var captured := board.GetPiece(targets[j].row, targets[j].col);
        if captured.Some? {
          captures' := captures' + [Move(from, targets[j])];
        }
      }
      assert targets[..|targets|] == targets;
    }

    /** A move of the side to move that captures: both squares on the board, distinct, both occupied. */
    static predicate IsCaptureOn(g: Grid, m: Move)
    {
      IsInBounds(m.from.row, m.from.col) && IsInBounds(m.to.row, m.to.col) && m.from != m.to
      && GetPiece(g, m.from.row, m.from.col).Some? && GetPiece(g, m.to.row, m.to.col).Some?
    }

    /** The captures of _quiescence, most valuable victim first. */
    method QuiescenceMoves(board: Board) returns (moves: seq<Move>)
      requires board.Valid()
      ensures multiset(moves) == multiset(CapturesOf(board.grid, AllMoves(board.grid, board.currentPlayer)))
      ensures |moves| == |CapturesOf(board.grid, AllMoves(board.grid, board.currentPlayer))|
      ensures forall m :: m in moves ==> IsCaptureOn(board.grid, m)
    {
      var ruleEngine := new RuleEngine(board);
      var captures := GenerateCaptures(board, ruleEngine);
      moves := SortByMvvLva(board, captures);
      assert |moves| == |multiset(moves)| == |multiset(captures)| == |captures|;
      AllMovesSound(board.grid, board.currentPlayer);
      forall m | m in moves
        ensures IsCaptureOn(board.grid, m)
      {
        assert m in multiset(captures);
        CapturesAreCaptures(board.grid, AllMoves(board.grid, board.currentPlayer), m);
      }
    }

    /**
     * _quiescence: fail-hard within (alpha, beta). Standing pat at or above
     * beta returns beta; otherwise the result is never below the stand-pat
     * score, and with no captures it is exactly max(alpha, stand_pat).
     */
    method Quiescence(board: Board, alpha0: int, beta: int, ply: int) returns (r: int)
      requires board.Valid()
      ensures alpha0 <= beta ==> alpha0 <= r <= beta
      ensures evaluate(board.grid, board.currentPlayer) >= beta ==> r == beta
      ensures alpha0 <= beta && evaluate(board.grid, board.currentPlayer) < beta ==>
                Minimax.Max(alpha0, evaluate(board.grid, board.currentPlayer)) <= r
      ensures CapturesOf(board.grid, AllMoves(board.grid, board.currentPlayer)) == [] ==>
                r == (if evaluate(board.grid, board.currentPlayer) >= beta then beta
                      else Minimax.Max(alpha0, evaluate(board.grid, board.currentPlayer)))
      decreases PieceCount(board.grid), 1
    {
      var standPat := evaluate(board.grid, board.currentPlayer);
      if standPat >= beta {
        return beta;
      }
      var alpha := alpha0;
      if standPat > alpha {
        alpha := standPat;
      }
      var moves := QuiescenceMoves(board);
      for i := 0 to |moves|
        invariant alpha == Minimax.Max(alpha0, standPat) || Minimax.Max(alpha0, standPat) < alpha
        invariant alpha0 <= beta ==> alpha <= beta
        invariant moves == [] ==> alpha == Minimax.Max(alpha0, standPat)
      {
        var move := moves[i];
        var captured := board.GetPiece(move.to.row, move.to.col);
        if captured.Some? {
          if standPat + ValueOf(captured) + 200 < alpha {
            continue;
          }
        }
        var score := SearchCapture(board, move, alpha, beta, ply);
        if score >= beta {
          return beta;
        }
        if score > alpha {
          alpha := score;
        }
      }
      return alpha;
    }

    /** One capture of _quiescence: make it on a copy and search the reply with the window negated. */
    method SearchCapture(board: Board, move: Move, alpha: int, beta: int, ply: int) returns (score: int)
      requires board.Valid() && IsCaptureOn(board.grid, move)
      ensures alpha <= beta ==> alpha <= score <= beta
      ensures evaluate(MovedGrid(board.grid, move), -board.currentPlayer) >= -alpha ==> score == alpha
      decreases PieceCount(board.grid), 0
    {
      var newBoard, _ := MakeMove(board, move);
      CaptureShrinksBoard(board.grid, move);
      assert evaluate(newBoard.grid, newBoard.currentPlayer) == evaluate(MovedGrid(board.grid, move), -board.currentPlayer);
      score := Quiescence(newBoard, -beta, -alpha, ply + 1);
      score := -score;
    }

    /**
     * _search. A search entered after the stop returns 0 and changes
     * nothing; a side with no legal move, searched in an open window with
     * no usable table entry, is mated at distance ply.
     */
    method SearchNode(board: Board, depth: int, alpha0: int, beta0: int, ply: int, canNull: bool) returns (r: int)
      requires Valid() && board.Valid() && ply >= 0
      modifies this, tt, orderer
      ensures Valid() && tt.generation == old(tt.generation)
      ensures old(stopSearch) ==> stopSearch
      ensures old(stopSearch) ==> r == 0 && unchanged(tt, orderer)
      ensures !stopSearch && AllMoves(board.grid, board.currentPlayer) == []
              && Minimax.Max(alpha0, -MATE_SCORE + ply) < Minimax.Min(beta0, MATE_SCORE - ply)
              && (ProbeIn(old(tt.table), tt.size, KeyOf(board.grid, board.currentPlayer)).None?
                  || ProbeIn(old(tt.table), tt.size, KeyOf(board.grid, board.currentPlayer)).value.depth < depth)
              ==> r == -MATE_SCORE + ply
      decreases DepthLeft(depth), 5
    {
      var stop := ShouldStop();
      if stop {
        return 0;
      }
      var alpha := Minimax.Max(alpha0, -MATE_SCORE + ply);
      var beta := Minimax.Min(beta0, MATE_SCORE - ply);
      if alpha >= beta {
        return alpha;
      }
      var hashKey := zobrist.HashBoard(board);
      var ttEntry := tt.Probe(hashKey as int);
      var cut := TTCut(ttEntry, depth, alpha, beta, ply);
      if cut.Some? {
        return cut.value;
      }
      var ttMove := if ttEntry.Some? then ttEntry.value.bestMove else None;
      r := ExpandNode(board, hashKey as int, ttMove, depth, alpha, beta, ply, canNull);
    }

    /**
     * The rest of _search, once no table entry has cut the node: a finished
     * game scores as a mate at distance ply, depth 0 drops into the
     * quiescence search, then the null-move test, then the move loop, whose
     * result is stored under the node's key.
     */
    method ExpandNode(board: Board, hashKey: int, ttMove: Option<Move>, depth: int, alpha: int, beta: int,
                      ply: int, canNull: bool) returns (r: int)
      requires Valid() && board.Valid() && ply >= 0
      modifies this, tt, orderer
      ensures Valid() && tt.generation == old(tt.generation)
      ensures old(stopSearch) ==> stopSearch
      ensures AllMoves(board.grid, board.currentPlayer) == [] ==> r == -MATE_SCORE + ply
      decreases DepthLeft(depth), 4
    {
      var ruleEngine := new RuleEngine(board);
      var result := ruleEngine.GetGameResult();
      GameResultExact(board.grid, board.currentPlayer);
      if result.Some? {
        if result.value == board.currentPlayer {
          // The side to move never wins: get_game_result only ever names its opponent.
          assert false;
        }
        return -MATE_SCORE + ply;
      }
      if depth <= 0 {
        r := Quiescence(board, alpha, beta, ply);
        return;
      }
      if canNull && depth >= 3 {
        var nullCut := NullMoveCut(board, ruleEngine, depth, beta, ply);
        if nullCut {
          return beta;
        }
      }
      var moves := GenerateMoves(board, ruleEngine);
      if moves == [] {
        // A side without moves was answered by get_game_result above.
        assert false;
      }
      AllMovesSound(board.grid, board.currentPlayer);
      r := SearchChildren(board, hashKey, ttMove, moves, depth, alpha, beta, ply);
    }

    /**
     * The moves of _search in order_moves order, searched by the move loop;
     * the best score is stored with the flag computed against the loop's
     * alpha and the best move.
     */
    method SearchChildren(board: Board, hashKey: int, ttMove: Option<Move>, moves: seq<Move>,
                          depth: int, alpha: int, beta: int, ply: int) returns (r: int)
      requires Valid() && board.Valid() && depth >= 1 && ply >= 0 && moves != [] && MovesInBounds(moves)
      modifies this, tt, orderer
      ensures Valid() && tt.generation == old(tt.generation)
      ensures old(stopSearch) ==> stopSearch
      decreases DepthLeft(depth), 3
    {
      var ordered := OrderMoves(board, moves, ttMove, orderer, ply);
      PermutedMovesInBounds(moves, ordered);
      var bestScore, bestMove, alphaAfter := SearchMoves(board, depth, alpha, beta, ply, ordered);
      tt.Store(hashKey, depth, bestScore, StoredFlag(bestScore, alphaAfter, beta), Some(bestMove));
      return bestScore;
    }

    /** board.copy() followed by move_piece on the copy: the position after the move, and what it took. */
    static method MakeMove(board: Board, move: Move) returns (newBoard: Board, captured: Cell)
      requires board.Valid()
      ensures fresh(newBoard) && newBoard.Valid()
      ensures newBoard.grid == MovedGrid(board.grid, move) && newBoard.currentPlayer == -board.currentPlayer
      ensures captured == GetPiece(board.grid, move.to.row, move.to.col)
    {
      newBoard := board.Copy();
      captured := newBoard.MovePiece(move);
    }

    /** A copy of the board with the other side to move: the null move. */
    static method NullBoard(board: Board) returns (nullBoard: Board)
      requires board.Valid()
      ensures fresh(nullBoard) && nullBoard.Valid()
      ensures nullBoard.grid == board.grid && nullBoard.currentPlayer == -board.currentPlayer
    {
      nullBoard := board.Copy();
      nullBoard.currentPlayer := -nullBoard.currentPlayer;
    }

    /**
     * The null-move test of _search: when the side to move is not in check,
     * pass the move on a copy and search with the reduction 3 + depth / 4;
     * a reply that still fails high cuts the node.
     */
    method NullMoveCut(board: Board, ruleEngine: RuleEngine, depth: int, beta: int, ply: int) returns (cut: bool)
      requires Valid() && board.Valid() && ruleEngine.board == board && depth >= 3 && ply >= 0
      modifies this, tt, orderer
      ensures Valid() && tt.generation == old(tt.generation)
      ensures old(stopSearch) ==> stopSearch
      ensures InCheck(board.grid, board.currentPlayer) ==> !cut && unchanged(this, tt, orderer)
      decreases DepthLeft(depth), 3
    {
      var inCheck := ruleEngine.IsInCheck(board.currentPlayer);
      if inCheck {
        return false;
      }
      var nullBoard := NullBoard(board);
      var reduction := 3 + depth / 4;
      NullReductionShrinks(depth);
      var score := SearchNode(nullBoard, depth - 1 - reduction, -beta, -beta + 1, ply + 1, false);
      score := -score;
      cut := score >= beta;
    }

    /**
     * The move loop of _search: the first move with the full window, the
     * rest with a null window (reduced for late quiet non-killer moves) and
     * a full re-search when that fails high. A quiet move that causes a
     * cutoff becomes a killer and earns history. best_score never passes
     * the loop's alpha, which is what makes the stored flag ALPHA.
     */
    method SearchMoves(board: Board, depth: int, alpha0: int, beta: int, ply: int, moves: seq<Move>)
      returns (bestScore: int, bestMove: Move, alpha: int)
      requires Valid() && board.Valid() && depth >= 1 && ply >= 0 && moves != [] && MovesInBounds(moves)
      modifies this, tt, orderer
      ensures Valid() && tt.generation == old(tt.generation)
      ensures old(stopSearch) ==> stopSearch
      ensures bestMove in moves && alpha >= alpha0
      ensures alpha0 >= -INFINITY ==> bestScore <= alpha
      decreases DepthLeft(depth), 2
    {
      bestMove := moves[0];
      bestScore := -INFINITY;
      alpha := alpha0;
      var i := 0;
      while i < |moves|
        invariant 0 <= i <= |moves|
        invariant Valid() && tt.generation == old(tt.generation)
        invariant old(stopSearch) ==> stopSearch
        invariant bestMove in moves && alpha >= alpha0
        invariant alpha0 >= -INFINITY ==> bestScore <= alpha
      {
        var move := moves[i];
        var score, quiet := SearchMove(board, move, i, depth, alpha, beta, ply);
        if score > bestScore {
          bestScore := score;
          bestMove := move;
        }
        if score > alpha {
          alpha := score;
        }
        if alpha >= beta {
          if quiet {
            RecordCutoff(board, move, depth, ply);
          }
          break;
        }
        i := i + 1;
      }
    }

    /** A quiet move that caused a cutoff becomes a killer at its ply and earns history. */
    method RecordCutoff(board: Board, move: Move, depth: int, ply: int)
      requires Valid() && WellFormed(board.grid) && IsInBounds(move.to.row, move.to.col) && ply >= 0
      modifies orderer
      ensures Valid()
      ensures orderer.killers == KillersAfter(old(orderer.killers), move, ply)
      ensures orderer.history == HistoryAfter(old(orderer.history), board.grid, move, depth, true)
    {
      orderer.UpdateKiller(move, ply);
      orderer.UpdateHistory(board, move, depth, true);
    }

    /**
     * One move of the loop of _search, the i-th searched (moves_searched
     * always equals i): make it on a copy, search the first move with the
     * full window and the others with a null window, reduced by LMR_TABLE
     * for late quiet non-killer moves at depth 3 or more, searching again
     * with the full window when the reply fails high.
     */
    method SearchMove(board: Board, move: Move, i: int, depth: int, alpha: int, beta: int, ply: int)
      returns (score: int, quiet: bool)
      requires Valid() && board.Valid() && depth >= 1 && ply >= 0 && i >= 0
      modifies this, tt, orderer
      ensures Valid() && tt.generation == old(tt.generation)
      ensures old(stopSearch) ==> stopSearch
      ensures quiet <==> GetPiece(board.grid, move.to.row, move.to.col).None?
      decreases DepthLeft(depth), 1
    {
      var newBoard, captured := MakeMove(board, move);
      quiet := captured.None?;
      if i == 0 {
        score := SearchNode(newBoard, depth - 1, -beta, -alpha, ply + 1, true);
        score := -score;
      } else {
        score := SearchLateMove(newBoard, move, quiet, i, depth, alpha, beta, ply);
      }
    }

    /**
     * A move after the first in the loop of _search, already made on
     * newBoard: a null-window search, reduced by LMR_TABLE for a quiet
     * non-killer move from the fifth on at depth 3 or more, and a full
     * re-search when the reply beats alpha and is below beta or was reduced.
     */
    method SearchLateMove(newBoard: Board, move: Move, quiet: bool, i: int, depth: int, alpha: int, beta: int, ply: int)
      returns (score: int)
      requires Valid() && newBoard.Valid() && depth >= 1 && ply >= 0 && i >= 0
      modifies this, tt, orderer
      ensures Valid() && tt.generation == old(tt.generation)
      ensures old(stopSearch) ==> stopSearch
      decreases DepthLeft(depth), 0
    {
      var reduction := 0;
      var killer := orderer.IsKiller(move, ply);
      if quiet && i >= 4 && depth >= 3 && !killer {
        reduction := lmrTable[Minimax.Min(depth, 63)][Minimax.Min(i, 63)];
      }
      score := SearchNode(newBoard, depth - 1 - reduction, -alpha - 1, -alpha, ply + 1, true);
      score := -score;
      if score > alpha && (score < beta || reduction > 0) {
        score := SearchNode(newBoard, depth - 1, -beta, -alpha, ply + 1, true);
        score := -score;
      }
    }

    /**
     * _search_root: no legal move gives (-MATE_SCORE, None); otherwise the
     * answer is always one of the legal moves (the first ordered move if
     * the stop comes before any is searched).
     */
    method SearchRoot(board: Board, depth: int, alpha0: int, beta: int) returns (score: int, move: Option<Move>)
      requires Valid() && board.Valid()
      modifies this, tt, orderer
      ensures Valid() && tt.generation == old(tt.generation)
      ensures old(stopSearch) ==> stopSearch
      ensures move.Some? <==> AllMoves(board.grid, board.currentPlayer) != []
      ensures move.Some? ==> move.value in AllMoves(board.grid, board.currentPlayer)
      ensures move.None? ==> score == -MATE_SCORE
    {
      var ruleEngine := new RuleEngine(board);
      var moves := GenerateMoves(board, ruleEngine);
      if moves == [] {
        return -MATE_SCORE, None;
      }
      AllMovesSound(board.grid, board.currentPlayer);
      var best;
      score, best := SearchRootPosition(board, moves, depth, alpha0, beta);
      move := Some(best);
    }

    /**
     * The root's moves in order_moves order (the table's move first),
     * searched by the root's move loop; the best score is stored under the
     * root's key with its move.
     */
    method SearchRootPosition(board: Board, moves: seq<Move>, depth: int, alpha0: int, beta: int)
      returns (score: int, move: Move)
      requires Valid() && board.Valid() && moves != [] && MovesInBounds(moves)
      modifies this, tt, orderer
      ensures Valid() && tt.generation == old(tt.generation)
      ensures old(stopSearch) ==> stopSearch
      ensures move in moves
    {
      var hashKey := zobrist.HashBoard(board);
      var ttEntry := tt.Probe(hashKey as int);
      var ttMove := if ttEntry.Some? then ttEntry.value.bestMove else None;
      var ordered := OrderMoves(board, moves, ttMove, orderer, 0);
      PermutedMovesInBounds(moves, ordered);
      var alpha;
      score, move, alpha := SearchRootMoves(board, ordered, depth, alpha0, beta);
      assert move in multiset(moves);
      tt.Store(hashKey as int, depth, score, StoredFlag(score, alpha, beta), Some(move));
    }

    /**
     * The move loop of _search_root: stop when told to, keep the best score
     * and its move (the first move until one beats -INFINITY), raise alpha,
     * and stop at a cutoff.
     */
    method SearchRootMoves(board: Board, moves: seq<Move>, depth: int, alpha0: int, beta: int)
      returns (bestScore: int, bestMove: Move, alpha: int)
      requires Valid() && board.Valid() && moves != []
      modifies this, tt, orderer
      ensures Valid() && tt.generation == old(tt.generation)
      ensures old(stopSearch) ==> stopSearch
      ensures bestMove in moves && alpha >= alpha0
    {
      bestMove := moves[0];
      bestScore := -INFINITY;
      alpha := alpha0;
      var i := 0;
      while i < |moves|
        invariant 0 <= i <= |moves|
        invariant Valid() && tt.generation == old(tt.generation)
        invariant old(stopSearch) ==> stopSearch
        invariant bestMove in moves && alpha >= alpha0
      {
        var stop := ShouldStop();
        if stop {
          break;
        }
        var move := moves[i];
        var s := SearchRootMove(board, move, i, depth, alpha, beta);
        if s > bestScore {
          bestScore := s;
          bestMove := move;
        }
        if s > alpha {
          alpha := s;
        }
        if alpha >= beta {
          break;
        }
        i := i + 1;
      }
    }

    /**
     * One move of the loop of _search_root: the first with the full window,
     * the others with a null window, reduced by LMR_TABLE from the fifth
     * move at depth 3 or more, and searched again with the full window when
     * the reply beats alpha.
     */
    method SearchRootMove(board: Board, move: Move, i: int, depth: int, alpha: int, beta: int) returns (score: int)
      requires Valid() && board.Valid() && i >= 0
      modifies this, tt, orderer
      ensures Valid() && tt.generation == old(tt.generation)
      ensures old(stopSearch) ==> stopSearch
    {
      var newBoard, _ := MakeMove(board, move);
      if i == 0 {
        score := SearchNode(newBoard, depth - 1, -beta, -alpha, 1, true);
        score := -score;
        return;
      }
      var reduction := 0;
      if i >= 4 && depth >= 3 {
        reduction := lmrTable[Minimax.Min(depth, 63)][Minimax.Min(i, 63)];
      }
      score := SearchNode(newBoard, depth - 1 - reduction, -alpha - 1, -alpha, 1, true);
      score := -score;
      if score > alpha {
        score := SearchNode(newBoard, depth - 1, -beta, -alpha, 1, true);
        score := -score;
      }
    }

    /**
     * One iteration of search: the root searched in the aspiration window,
     * and again with the full window when the score lands on or outside it.
     */
    method SearchIteration(board: Board, d: int, bestScore: int) returns (score: int, move: Option<Move>)
      requires Valid() && board.Valid()
      modifies this, tt, orderer
      ensures Valid() && tt.generation == old(tt.generation)
      ensures old(stopSearch) ==> stopSearch
      ensures move.Some? <==> AllMoves(board.grid, board.currentPlayer) != []
      ensures move.Some? ==> move.value in AllMoves(board.grid, board.currentPlayer)
    {
      var (alpha, beta) := AspirationWindow(d, bestScore);
      score, move := SearchRoot(board, d, alpha, beta);
      if NeedsResearch(score, alpha, beta) {
        score, move := SearchRoot(board, d, -INFINITY, INFINITY);
      }
    }

    /**
     * search: iterative deepening from depth 1. The answer is only ever
     * taken from an iteration that finished before the stop and produced a
     * move, so it is always legal and None when there is no legal move;
     * a search that is never stopped and has a legal move answers one.
     */
    method Search(board: Board, depth: int) returns (bestMove: Option<Move>)
      requires Valid() && board.Valid()
      modifies this, tt, orderer
      ensures Valid() && tt.generation == old(tt.generation) + 1
      ensures bestMove.Some? ==> bestMove.value in AllMoves(board.grid, board.currentPlayer)
      ensures AllMoves(board.grid, board.currentPlayer) == [] ==> bestMove.None?
      ensures depth >= 1 && !stopSearch && AllMoves(board.grid, board.currentPlayer) != [] ==> bestMove.Some?
    {
      stopSearch := false;
      tt.NewSearch();
      bestMove := None;
      var bestScore := -INFINITY;
      var d := 1;
      while d <= depth
        invariant d >= 1
        invariant Valid() && tt.generation == old(tt.generation) + 1
        invariant bestMove.Some? ==> bestMove.value in AllMoves(board.grid, board.currentPlayer)
        invariant d > 1 && !stopSearch && AllMoves(board.grid, board.currentPlayer) != [] ==> bestMove.Some?
      {
        var stop := ShouldStop();
        if stop {
          break;
        }
        var score, move := SearchIteration(board, d, bestScore);
        stop := ShouldStop();
        if !stop && move.Some? {
          bestMove := move;
          bestScore := score;
        }
        d := d + 1;
      }
    }
  }

  /** search_best_move: the engine's search at the level's depth, the middle level for an unknown name. */
  method SearchBestMove(engine: SearchEngine, board: Board, difficulty: string) returns (move: Option<Move>)
    requires engine.Valid() && board.Valid()
    modifies engine, engine.tt, engine.orderer
    ensures engine.Valid()
    ensures move.Some? ==> move.value in AllMoves(board.grid, board.currentPlayer)
    ensures AllMoves(board.grid, board.currentPlayer) == [] ==> move.None?
    ensures !engine.stopSearch && AllMoves(board.grid, board.currentPlayer) != [] ==> move.Some?
  {
    var config := ConfigFor(difficulty);
    move := engine.Search(board, config.depth);
  }
}
