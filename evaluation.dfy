/**
 * Static evaluation of a position (ai/evaluation.py): material plus a
 * piece-square bonus per piece, counted for the perspective's pieces and
 * against the other side's, and the search depth of each difficulty level.
 */
module Evaluation {
  import opened Wrappers
  import opened Constants
  import opened Grids
  import opened Seqs
  import opened Boards

  /** Search depth per difficulty level, from 小白 (novice) to 大师 (master). */
  const DIFFICULTY_DEPTHS: map<string, int> := map[
    "小白" := 1, "初级" := 2, "中级" := 3, "高级" := 4, "大师" := 5]

  const DIFFICULTY_LEVELS: seq<string> := ["小白", "初级", "中级", "高级", "大师"]

  /** The levels, in increasing strength, search one ply deeper each, from 1 to 5. */
  lemma DifficultyDepthsIncrease()
    ensures |DIFFICULTY_DEPTHS| == 5
    ensures forall i :: 0 <= i < 5 ==>
      DIFFICULTY_LEVELS[i] in DIFFICULTY_DEPTHS && DIFFICULTY_DEPTHS[DIFFICULTY_LEVELS[i]] == i + 1
  {
  }

  /** Every level searches at least one ply. */
  lemma DifficultyDepthsPositive()
    ensures forall level :: level in DIFFICULTY_DEPTHS ==> 1 <= DIFFICULTY_DEPTHS[level] <= 5
  {
  }

  /** A piece-square table: ten rows, Red's back rank first, of nine columns. */
  predicate IsTable(t: seq<seq<int>>)
  {
    |t| == 10 && forall i :: 0 <= i < 10 ==> |t[i]| == 9
  }

  const PAWN_PST_RED: seq<seq<int>> := [
    [0, 0, 0, 0, 0, 0, 0, 0, 0],
    [0, 0, 0, 0, 0, 0, 0, 0, 0],
    [0, 0, 0, 0, 0, 0, 0, 0, 0],
    [0, 0, -2, 0, 3, 0, -2, 0, 0],
    [2, 0, 8, 0, 8, 0, 8, 0, 2],
    [6, 12, 18, 18, 20, 18, 18, 12, 6],
    [10, 20, 30, 34, 40, 34, 30, 20, 10],
    [14, 26, 42, 60, 80, 60, 42, 26, 14],
    [18, 36, 56, 80, 120, 80, 56, 36, 18],
    [0, 3, 6, 9, 12, 9, 6, 3, 0]]

  const KNIGHT_PST: seq<seq<int>> := [
    [0, -3, 5, 4, 2, 4, 5, -3, 0],
    [-3, 2, 4, 6, 10, 6, 4, 2, -3],
    [4, 6, 10, 15, 16, 15, 10, 6, 4],
    [2, 10, 13, 14, 15, 14, 13, 10, 2],
    [2, 12, 11, 15, 16, 15, 11, 12, 2],
    [0, 5, 13, 12, 12, 12, 13, 5, 0],
    [-3, 2, 5, 5, 5, 5, 5, 2, -3],
    [0, -5, 2, 4, 2, 4, 2, -5, 0],
    [-8, 2, 4, -5, -4, -5, 4, 2, -8],
    [0, -4, 0, 0, 0, 0, 0, -4, 0]]

  const CANNON_PST: seq<seq<int>> := [
    [0, 0, 1, 0, -1, 0, 1, 0, 0],
    [0, 1, 0, 0, 0, 0, 0, 1, 0],
    [1, 0, 4, 3, 4, 3, 4, 0, 1],
    [3, 2, 3, 4, 3, 4, 3, 2, 3],
    [3, 2, 5, 4, 6, 4, 5, 2, 3],
    [3, 4, 6, 7, 6, 7, 6, 4, 3],
    [2, 3, 4, 4, 3, 4, 4, 3, 2],
    [0, 0, 0, 1, 1, 1, 0, 0, 0],
    [-1, 1, 1, 1, 0, 1, 1, 1, -1],
    [0, 0, 0, 2, 4, 2, 0, 0, 0]]

  const ROOK_PST: seq<seq<int>> := [
    [-2, 10, 6, 14, 12, 14, 6, 10, -2],
    [8, 4, 8, 16, 8, 16, 8, 4, 8],
    [4, 8, 6, 14, 12, 14, 6, 8, 4],
    [6, 10, 8, 14, 14, 14, 8, 10, 6],
    [12, 16, 14, 20, 20, 20, 14, 16, 12],
    [12, 14, 12, 18, 18, 18, 12, 14, 12],
    [12, 18, 16, 22, 22, 22, 16, 18, 12],
    [12, 12, 12, 18, 18, 18, 12, 12, 12],
    [16, 20, 18, 24, 26, 24, 18, 20, 16],
    [14, 14, 12, 18, 16, 18, 12, 14, 14]]

  const KING_PST_RED: seq<seq<int>> := [
    [0, 0, 0, 8, 9, 8, 0, 0, 0],
    [0, 0, 0, 8, 8, 8, 0, 0, 0],
    [0, 0, 0, 9, 9, 9, 0, 0, 0],
    [0, 0, 0, 0, 0, 0, 0, 0, 0],
    [0, 0, 0, 0, 0, 0, 0, 0, 0],
    [0, 0, 0, 0, 0, 0, 0, 0, 0],
    [0, 0, 0, 0, 0, 0, 0, 0, 0],
    [0, 0, 0, 0, 0, 0, 0, 0, 0],
    [0, 0, 0, 0, 0, 0, 0, 0, 0],
    [0, 0, 0, 0, 0, 0, 0, 0, 0]]

  const ADVISOR_PST_RED: seq<seq<int>> := [
    [0, 0, 0, 0, 0, 0, 0, 0, 0],
    [0, 0, 0, 0, 2, 0, 0, 0, 0],
    [0, 0, 0, 0, 0, 0, 0, 0, 0],
    [0, 0, 0, 0, 0, 0, 0, 0, 0],
    [0, 0, 0, 0, 0, 0, 0, 0, 0],
    [0, 0, 0, 0, 0, 0, 0, 0, 0],
    [0, 0, 0, 0, 0, 0, 0, 0, 0],
    [0, 0, 0, 0, 0, 0, 0, 0, 0],
    [0, 0, 0, 0, 0, 0, 0, 0, 0],
    [0, 0, 0, 0, 0, 0, 0, 0, 0]]

  const BISHOP_PST_RED: seq<seq<int>> := [
    [0, 0, 0, 0, 0, 0, 0, 0, 0],
    [0, 0, 0, 0, 0, 0, 0, 0, 0],
    [-2, 0, 0, 0, 3, 0, 0, 0, -2],
    [0, 0, 0, 0, 0, 0, 0, 0, 0],
    [0, 0, 3, 0, 0, 0, 3, 0, 0],
    [0, 0, 0, 0, 0, 0, 0, 0, 0],
    [0, 0, 0, 0, 0, 0, 0, 0, 0],
    [0, 0, 0, 0, 0, 0, 0, 0, 0],
    [0, 0, 0, 0, 0, 0, 0, 0, 0],
    [0, 0, 0, 0, 0, 0, 0, 0, 0]]

  /** _flip_pst: the table seen from Black's side, rows in reverse order. */
  function FlipPst(t: seq<seq<int>>): seq<seq<int>>
  {
    Reverse(t)
  }

  /** Row r of the flipped table is row 9 - r of the original, and flipping twice is the identity. */
  lemma FlipPstSpec(t: seq<seq<int>>)
    requires IsTable(t)
    ensures IsTable(FlipPst(t))
    ensures forall r, c :: 0 <= r < 10 && 0 <= c < 9 ==> FlipPst(t)[r][c] == t[9 - r][c]
    ensures FlipPst(FlipPst(t)) == t
  {
    ReverseInvolution(t);
  }

  const PAWN_PST_BLACK: seq<seq<int>> := FlipPst(PAWN_PST_RED)
  const KING_PST_BLACK: seq<seq<int>> := FlipPst(KING_PST_RED)
  const ADVISOR_PST_BLACK: seq<seq<int>> := FlipPst(ADVISOR_PST_RED)
  const BISHOP_PST_BLACK: seq<seq<int>> := FlipPst(BISHOP_PST_RED)

  /** Every table entry lies in [-8, 120]. */
  predicate Bounded(t: seq<seq<int>>)
    requires IsTable(t)
  {
    forall r, c :: 0 <= r < 10 && 0 <= c < 9 ==> -8 <= t[r][c] <= 120
  }

  lemma PawnTableShaped()
    ensures IsTable(PAWN_PST_RED) && Bounded(PAWN_PST_RED)
  {
  }

  lemma KingTableShaped()
    ensures IsTable(KING_PST_RED) && Bounded(KING_PST_RED)
  {
  }

  lemma AdvisorTableShaped()
    ensures IsTable(ADVISOR_PST_RED) && Bounded(ADVISOR_PST_RED)
  {
  }

  lemma BishopTableShaped()
    ensures IsTable(BISHOP_PST_RED) && Bounded(BISHOP_PST_RED)
  {
  }

  lemma KnightTableShaped()
    ensures IsTable(KNIGHT_PST) && Bounded(KNIGHT_PST)
  {
  }

  lemma CannonTableShaped()
    ensures IsTable(CANNON_PST) && Bounded(CANNON_PST)
  {
  }

  lemma RookTableShaped()
    ensures IsTable(ROOK_PST) && Bounded(ROOK_PST)
  {
  }

  lemma TablesShaped()
    ensures IsTable(PAWN_PST_RED) && Bounded(PAWN_PST_RED) && IsTable(PAWN_PST_BLACK) && Bounded(PAWN_PST_BLACK)
    ensures IsTable(KING_PST_RED) && Bounded(KING_PST_RED) && IsTable(KING_PST_BLACK) && Bounded(KING_PST_BLACK)
    ensures IsTable(ADVISOR_PST_RED) && Bounded(ADVISOR_PST_RED) && IsTable(ADVISOR_PST_BLACK) && Bounded(ADVISOR_PST_BLACK)
    ensures IsTable(BISHOP_PST_RED) && Bounded(BISHOP_PST_RED) && IsTable(BISHOP_PST_BLACK) && Bounded(BISHOP_PST_BLACK)
    ensures IsTable(KNIGHT_PST) && Bounded(KNIGHT_PST)
    ensures IsTable(CANNON_PST) && Bounded(CANNON_PST)
    ensures IsTable(ROOK_PST) && Bounded(ROOK_PST)
  {
    PawnTableShaped();
    KingTableShaped();
    AdvisorTableShaped();
    BishopTableShaped();
    KnightTableShaped();
    CannonTableShaped();
    RookTableShaped();
    FlipPstSpec(PAWN_PST_RED);
    FlipPstSpec(KING_PST_RED);
    FlipPstSpec(ADVISOR_PST_RED);
    FlipPstSpec(BISHOP_PST_RED);
  }

  /** The table get_position_value reads for a piece, or None for a type without one. */
  function TableOf(piece: char): (t: Option<seq<seq<int>>>)
    ensures t.Some? ==> IsTable(t.value) && Bounded(t.value)
  {
    TablesShaped();
    var kind := Upper(piece);
    var red := GetPieceColor(piece) == RED;
    if kind == 'P' then Some(if red then PAWN_PST_RED else PAWN_PST_BLACK)
    else if kind == 'N' then Some(KNIGHT_PST)
    else if kind == 'C' then Some(CANNON_PST)
    else if kind == 'R' then Some(ROOK_PST)
    else if kind == 'K' then Some(if red then KING_PST_RED else KING_PST_BLACK)
    else if kind == 'A' then Some(if red then ADVISOR_PST_RED else ADVISOR_PST_BLACK)
    else if kind == 'B' then Some(if red then BISHOP_PST_RED else BISHOP_PST_BLACK)
    else None
  }

  /** get_position_value: the piece's table entry at (row, col), 0 for a type without a table. */
  function GetPositionValue(piece: char, row: int, col: int): (v: int)
    requires 0 <= row < 10 && 0 <= col < 9
    ensures -8 <= v <= 120
  {
    match TableOf(piece)
    case None => 0
    case Some(t) => t[row][col]
  }

  /**
   * Black's pawn, king, advisor and elephant read Red's table upside down;
   * Black's knight, cannon and rook read the very same entry as Red's; a
   * character of no piece type scores 0.
   */
  lemma PositionValueByColour(piece: char, row: int, col: int)
    requires piece in RED_PIECES && 0 <= row < 10 && 0 <= col < 9
    ensures Upper(piece) in {'P', 'K', 'A', 'B'} ==>
      GetPositionValue(Lower(piece), row, col) == GetPositionValue(piece, 9 - row, col)
    ensures Upper(piece) in {'N', 'C', 'R'} ==>
      GetPositionValue(Lower(piece), row, col) == GetPositionValue(piece, row, col)
  {
    PieceCaseCorrespondence(piece);
    TablesShaped();
    FlipPstSpec(PAWN_PST_RED);
    FlipPstSpec(KING_PST_RED);
    FlipPstSpec(ADVISOR_PST_RED);
    FlipPstSpec(BISHOP_PST_RED);
  }

  lemma UntabledScoresZero(piece: char, row: int, col: int)
    requires 0 <= row < 10 && 0 <= col < 9
    requires Upper(piece) !in {'P', 'N', 'C', 'R', 'K', 'A', 'B'}
    ensures GetPositionValue(piece, row, col) == 0
  {
  }

  /** The material value, doubled to 200 for a pawn across the river. */
  function Material(piece: char, row: int): int
    requires piece in ALL_PIECES
  {
    PieceSetsPartition();
    var color := GetPieceColor(piece);
    if Upper(piece) == 'P' && ((color == RED && row > RIVER_ROW) || (color == BLACK && row < RIVER_ROW + 1)) then 200
    else PIECE_VALUES[piece]
  }

  /** A pawn on the far side of the river is worth 200, at home 100; other pieces keep their value. */
  lemma MaterialSpec(piece: char, row: int)
    requires piece in ALL_PIECES && 0 <= row < 10
    ensures piece == 'P' ==> Material(piece, row) == (if row > RIVER_ROW then 200 else 100)
    ensures piece == 'p' ==> Material(piece, row) == (if row <= RIVER_ROW then 200 else 100)
    ensures Upper(piece) != 'P' ==> Material(piece, row) == PIECE_VALUES[piece]
    ensures 100 <= Material(piece, row) <= 10000
  {
    PieceSetsPartition();
    if piece in RED_PIECES {
      PieceValuesColourBlind(piece);
    } else {
      PieceCaseCorrespondence(piece);
      PieceValuesColourBlind(Upper(piece));
    }
  }

  /** The value of piece p on (row, col), counted for the perspective if p is its colour and against it otherwise. */
  function PieceScore(p: char, row: int, col: int, perspective: int): int
    requires p in ALL_PIECES && 0 <= row < 10 && 0 <= col < 9
  {
    var value := Material(p, row) + GetPositionValue(p, row, col);
    if GetPieceColor(p) == perspective then value else -value
  }

  /** The signed value the piece on (row, col), if any, adds to the score seen from `perspective`. */
  function CellScore(g: Grid, row: int, col: int, perspective: int): int
    requires WellFormed(g) && 0 <= row < 10 && 0 <= col < 9
  {
    match g[row][col]
    case None => 0
    case Some(p) => PieceScore(p, row, col, perspective)
  }

  /** The column loop's sum over the first n squares of row `row`. */
  function RowUpTo(g: Grid, perspective: int, row: int, n: int): int
    requires WellFormed(g) && 0 <= row < 10 && 0 <= n <= 9
  {
    if n == 0 then 0 else RowUpTo(g, perspective, row, n - 1) + CellScore(g, row, n - 1, perspective)
  }

  /** The row loop's sum over the first r rows. */
  function RowsUpTo(g: Grid, perspective: int, r: int): int
    requires WellFormed(g) && 0 <= r <= 10
  {
    if r == 0 then 0 else RowsUpTo(g, perspective, r - 1) + RowUpTo(g, perspective, r - 1, 9)
  }

  /** evaluate_board. */
  function Evaluate(g: Grid, perspective: int): int
    requires WellFormed(g)
  {
    RowsUpTo(g, perspective, 10)
  }

  /** evaluate_board's nested loops over a board. */
  method EvaluateBoard(board: Board, perspectiveColor: int) returns (score: int)
    requires WellFormed(board.grid)
    ensures score == Evaluate(board.grid, perspectiveColor)
  {
    score := 0;
    for row := 0 to BOARD_ROWS
      invariant score == RowsUpTo(board.grid, perspectiveColor, row)
    {
      score := EvaluateRow(board, perspectiveColor, row, score);
    }
  }

  /** One pass of evaluate_board's column loop, adding row `row` to the running score. */
  method EvaluateRow(board: Board, perspectiveColor: int, row: int, score0: int) returns (score: int)
    requires WellFormed(board.grid) && 0 <= row < 10
    ensures score == score0 + RowUpTo(board.grid, perspectiveColor, row, 9)
  {
    score := score0;
    for col := 0 to BOARD_COLS
      invariant score == score0 + RowUpTo(board.grid, perspectiveColor, row, col)
    {
      score := EvaluateSquare(board, perspectiveColor, row, col, score);
    }
  }

  /** The body of the column loop: add the piece on (row, col), if any, for or against the perspective. */
  method EvaluateSquare(board: Board, perspectiveColor: int, row: int, col: int, score0: int) returns (score: int)
    requires WellFormed(board.grid) && 0 <= row < 10 && 0 <= col < 9
    ensures score == score0 + CellScore(board.grid, row, col, perspectiveColor)
  {
    score := score0;
    var piece := board.GetPiece(row, col);
    if piece.None? {
      return;
    }
    var p := piece.value;
    var color := GetPieceColor(p);
    var materialValue := Material(p, row);
    var positionValue := GetPositionValue(p, row, col);
    var pieceValue := materialValue + positionValue;
    if color == perspectiveColor {
      score := score + pieceValue;
    } else {
      score := score - pieceValue;
    }
  }

  lemma CellScoreAntisymmetric(g: Grid, perspective: int, row: int, col: int)
    requires WellFormed(g) && perspective in {RED, BLACK} && 0 <= row < 10 && 0 <= col < 9
    ensures CellScore(g, row, col, perspective) == -CellScore(g, row, col, -perspective)
  {
    PieceSetsPartition();
  }

  lemma {:induction false} RowUpToAntisymmetric(g: Grid, perspective: int, row: int, n: int)
    requires WellFormed(g) && perspective in {RED, BLACK} && 0 <= row < 10 && 0 <= n <= 9
    ensures RowUpTo(g, perspective, row, n) == -RowUpTo(g, -perspective, row, n)
  {
    if n > 0 {
      RowUpToAntisymmetric(g, perspective, row, n - 1);
      CellScoreAntisymmetric(g, perspective, row, n - 1);
      SumNegated(RowUpTo(g, perspective, row, n - 1), CellScore(g, row, n - 1, perspective),
                 RowUpTo(g, -perspective, row, n - 1), CellScore(g, row, n - 1, -perspective));
    }
  }

  /** Negating both terms negates the sum. */
  lemma SumNegated(a: int, b: int, a': int, b': int)
    requires a == -a' && b == -b'
    ensures a + b == -(a' + b')
  {
  }

  lemma {:induction false} RowsUpToAntisymmetric(g: Grid, perspective: int, r: int)
    requires WellFormed(g) && perspective in {RED, BLACK} && 0 <= r <= 10
    ensures RowsUpTo(g, perspective, r) == -RowsUpTo(g, -perspective, r)
  {
    if r > 0 {
      RowsUpToAntisymmetric(g, perspective, r - 1);
      RowUpToAntisymmetric(g, perspective, r - 1, 9);
    }
  }

  /** Seen from the other side, every position is worth exactly the opposite. */
  lemma EvaluateAntisymmetric(g: Grid)
    requires WellFormed(g)
    ensures Evaluate(g, RED) == -Evaluate(g, BLACK)
  {
    RowsUpToAntisymmetric(g, RED, 10);
  }

  lemma EmptyGridWellFormed()
    ensures WellFormed(EMPTY_GRID)
    ensures forall r, c :: 0 <= r < 10 && 0 <= c < 9 ==> EMPTY_GRID[r][c].None?
  {
  }

  lemma {:induction false} RowUpToEmpty(perspective: int, row: int, n: int)
    requires 0 <= row < 10 && 0 <= n <= 9
    ensures WellFormed(EMPTY_GRID) && RowUpTo(EMPTY_GRID, perspective, row, n) == 0
  {
    EmptyGridWellFormed();
    if n > 0 {
      RowUpToEmpty(perspective, row, n - 1);
      assert EMPTY_GRID[row][n - 1].None?;
    }
  }

  lemma {:induction false} RowsUpToEmpty(perspective: int, r: int)
    requires 0 <= r <= 10
    ensures WellFormed(EMPTY_GRID) && RowsUpTo(EMPTY_GRID, perspective, r) == 0
  {
    EmptyGridWellFormed();
    if r > 0 {
      RowsUpToEmpty(perspective, r - 1);
      RowUpToEmpty(perspective, r - 1, 9);
    }
  }

  /** A board without pieces evaluates to 0 from either side. */
  lemma EmptyBoardIsLevel(perspective: int)
    ensures WellFormed(EMPTY_GRID) && Evaluate(EMPTY_GRID, perspective) == 0
  {
    RowsUpToEmpty(perspective, 10);
  }

  /** The largest value one piece can add: a king's material and the largest table entry. */
  const MAX_PIECE_SCORE: int := 10120

  lemma CellScoreBounded(g: Grid, perspective: int, row: int, col: int)
    requires WellFormed(g) && 0 <= row < 10 && 0 <= col < 9
    ensures -MAX_PIECE_SCORE <= CellScore(g, row, col, perspective) <= MAX_PIECE_SCORE
  {
    if g[row][col].Some? {
      MaterialSpec(g[row][col].value, row);
    }
  }

  /** A row of n squares adds at most n times MAX_PIECE_SCORE either way. */
  lemma {:induction false} RowUpToBounded(g: Grid, perspective: int, row: int, n: int)
    requires WellFormed(g) && 0 <= row < 10 && 0 <= n <= 9
    ensures -10120 * n <= RowUpTo(g, perspective, row, n) <= 10120 * n
  {
    if n > 0 {
      RowUpToBounded(g, perspective, row, n - 1);
      CellScoreBounded(g, perspective, row, n - 1);
      SumBounded(RowUpTo(g, perspective, row, n - 1), CellScore(g, row, n - 1, perspective), n - 1, MAX_PIECE_SCORE);
    }
  }

  /** A bound of k per term carries over to one more term. */
  lemma SumBounded(sum: int, term: int, n: nat, k: int)
    requires -k * n <= sum <= k * n && -k <= term <= k
    ensures -k * (n + 1) <= sum + term <= k * (n + 1)
  {
  }

  /** r rows add at most 9r times MAX_PIECE_SCORE either way. */
  lemma {:induction false} RowsUpToBounded(g: Grid, perspective: int, r: int)
    requires WellFormed(g) && 0 <= r <= 10
    ensures -91080 * r <= RowsUpTo(g, perspective, r) <= 91080 * r
  {
    if r > 0 {
      RowsUpToBounded(g, perspective, r - 1);
      RowUpToBounded(g, perspective, r - 1, 9);
    }
  }

  /** Every evaluation lies strictly between the mate scores -999999 and 999999. */
  lemma EvaluateBounded(g: Grid, perspective: int)
    requires WellFormed(g)
    ensures -910800 <= Evaluate(g, perspective) <= 910800
  {
    RowsUpToBounded(g, perspective, 10);
  }
}
