/**
 * The integer part of the NNUE evaluator (ai/nnue.py): the square and
 * feature index arithmetic, the vertical mirror used from Black's side, the
 * extraction of a position's active features, and the classical
 * material-plus-table evaluation the network's output is blended with.
 */
module Nnue {
  import opened Wrappers
  import opened Constants
  import opened Grids
  import opened Boards

  const NUM_PIECE_TYPES: int := 7
  const NUM_SQUARES: int := 90
  /** Two sides times seven piece types times ninety squares. */
  const INPUT_SIZE: int := 1260

  /** Both colours of a piece share one type index, 0 (king) to 6 (pawn). */
  const PIECE_TYPE_INDEX: map<char, int> := map[
    'K' := 0, 'k' := 0,
    'A' := 1, 'a' := 1,
    'B' := 2, 'b' := 2,
    'N' := 3, 'n' := 3,
    'R' := 4, 'r' := 4,
    'C' := 5, 'c' := 5,
    'P' := 6, 'p' := 6]

  // ----- Index arithmetic -----

  /** square_index: row-major position of (row, col). */
  function SquareIndex(row: int, col: int): int
  {
    row * BOARD_COLS + col
  }

  /** feature_index: side block (0 own, 1 opponent), then type block, then square. */
  function FeatureIndex(perspective: int, pieceType: int, square: int): int
  {
    perspective * (NUM_PIECE_TYPES * NUM_SQUARES) + pieceType * NUM_SQUARES + square
  }

  /**
   * mirror_square: the square with the same column on the mirrored row.
   * Python's floor division and modulo by the positive 9 agree with
   * Dafny's Euclidean ones, so no adjustment is needed.
   */
  function MirrorSquare(square: int): int
  {
    var row := square / BOARD_COLS;
    var col := square % BOARD_COLS;
    var mirroredRow := BOARD_ROWS - 1 - row;
    mirroredRow * BOARD_COLS + col
  }

  /** square_index sends the board into [0, 90). */
  lemma SquareIndexRange(row: int, col: int)
    requires IsInBounds(row, col)
    ensures 0 <= SquareIndex(row, col) < NUM_SQUARES
    ensures SquareIndex(row, col) / 9 == row && SquareIndex(row, col) % 9 == col
  {
  }

  /** Two squares with one index are one square. */
  lemma SquareIndexInjective(r1: int, c1: int, r2: int, c2: int)
    requires IsInBounds(r1, c1) && IsInBounds(r2, c2)
    requires SquareIndex(r1, c1) == SquareIndex(r2, c2)
    ensures r1 == r2 && c1 == c2
  {
    SquareIndexRange(r1, c1);
    SquareIndexRange(r2, c2);
  }

  /** Every index in [0, 90) is the index of some square of the board. */
  lemma SquareIndexOnto(k: int)
    requires 0 <= k < NUM_SQUARES
    ensures IsInBounds(k / 9, k % 9) && SquareIndex(k / 9, k % 9) == k
  {
  }

  /** For a side in {0, 1}, a type in [0, 7) and a square in [0, 90), the index lies in that side's half of [0, 1260). */
  lemma FeatureIndexRange(perspective: int, pieceType: int, square: int)
    requires perspective in {0, 1} && 0 <= pieceType < NUM_PIECE_TYPES && 0 <= square < NUM_SQUARES
    ensures 0 <= FeatureIndex(perspective, pieceType, square) < INPUT_SIZE
    ensures perspective == 0 <==> FeatureIndex(perspective, pieceType, square) < 630
  {
  }

  /** Distinct (side, type, square) triples have distinct feature indices. */
  lemma FeatureIndexInjective(p1: int, t1: int, s1: int, p2: int, t2: int, s2: int)
    requires p1 in {0, 1} && 0 <= t1 < NUM_PIECE_TYPES && 0 <= s1 < NUM_SQUARES
    requires p2 in {0, 1} && 0 <= t2 < NUM_PIECE_TYPES && 0 <= s2 < NUM_SQUARES
    requires FeatureIndex(p1, t1, s1) == FeatureIndex(p2, t2, s2)
    ensures p1 == p2 && t1 == t2 && s1 == s2
  {
    var f := FeatureIndex(p1, t1, s1);
    assert p1 == f / 630 == p2;
    assert t1 * 90 + s1 == t2 * 90 + s2;
    assert t1 == (t1 * 90 + s1) / 90 == t2;
  }

  /** The mirror keeps the column, sends row r to row 9 - r, and stays in [0, 90). */
  lemma MirrorSquareSpec(square: int)
    requires 0 <= square < NUM_SQUARES
    ensures 0 <= MirrorSquare(square) < NUM_SQUARES
    ensures MirrorSquare(square) % 9 == square % 9
    ensures MirrorSquare(square) / 9 == 9 - square / 9
  {
  }

  /** Mirroring twice gives back the square. */
  lemma MirrorSquareInvolution(square: int)
    requires 0 <= square < NUM_SQUARES
    ensures MirrorSquare(MirrorSquare(square)) == square
  {
    MirrorSquareSpec(square);
  }

  /** The type index is defined on exactly the fourteen pieces. */
  lemma PieceTypeIndexKeys()
    ensures PIECE_TYPE_INDEX.Keys == ALL_PIECES
  {
  }

  /** Both colours of a piece share its index, which lies in [0, 7) and no other type shares. */
  lemma PieceTypeIndexColourBlind(p: char, q: char)
    requires p in RED_PIECES && q in RED_PIECES
    ensures Lower(p) in PIECE_TYPE_INDEX && PIECE_TYPE_INDEX[p] == PIECE_TYPE_INDEX[Lower(p)]
    ensures 0 <= PIECE_TYPE_INDEX[p] < NUM_PIECE_TYPES
    ensures q != p ==> PIECE_TYPE_INDEX[q] != PIECE_TYPE_INDEX[p]
  {
  }

  // ----- extract_features -----

  /**
   * The feature of piece p on the square of index k seen from `perspective`:
   * own block if p is that colour, square mirrored for any side but Red.
   */
  function FeatureOf(p: char, k: int, perspective: int): int
    requires p in ALL_PIECES
  {
    var sq := if perspective == RED then k else MirrorSquare(k);
    FeatureIndex(if GetPieceColor(p) == perspective then 0 else 1, PIECE_TYPE_INDEX[p], sq)
  }

  /** The two feature lists after the first n squares in row-major order. */
  function FeaturesUpTo(g: Grid, perspective: int, n: int): (lists: (seq<int>, seq<int>))
    requires WellFormed(g) && 0 <= n <= 90
  {
    if n == 0 then ([], [])
    else
      var prev := FeaturesUpTo(g, perspective, n - 1);
      var s := SquareOf(n - 1);
      match g[s.row][s.col]
      case None => prev
      case Some(p) =>
        if GetPieceColor(p) == perspective then (prev.0 + [FeatureOf(p, n - 1, perspective)], prev.1)
        else (prev.0, prev.1 + [FeatureOf(p, n - 1, perspective)])
  }

  /** extract_features. */
  method ExtractFeatures(board: Board, perspective: int) returns (ownFeatures: seq<int>, oppFeatures: seq<int>)
    requires WellFormed(board.grid)
    ensures (ownFeatures, oppFeatures) == FeaturesUpTo(board.grid, perspective, 90)
  {
    var lists := ([], []);
    for row := 0 to BOARD_ROWS
      invariant lists == FeaturesUpTo(board.grid, perspective, row * 9)
    {
      lists := ExtractRow(board, perspective, row, lists);
    }
    ownFeatures, oppFeatures := lists.0, lists.1;
  }

  /** The column loop of extract_features over one row; `lists` holds the own and the opponent list. */
  method ExtractRow(board: Board, perspective: int, row: int, lists0: (seq<int>, seq<int>))
    returns (lists: (seq<int>, seq<int>))
    requires WellFormed(board.grid) && 0 <= row < 10
    requires lists0 == FeaturesUpTo(board.grid, perspective, row * 9)
    ensures lists == FeaturesUpTo(board.grid, perspective, (row + 1) * 9)
  {
    lists := lists0;
    for col := 0 to BOARD_COLS
      invariant lists == FeaturesUpTo(board.grid, perspective, row * 9 + col)
    {
      lists := ExtractSquare(board, perspective, row, col, lists);
    }
  }

  /** The body of the column loop: file the piece on (row, col), if any, under its side. */
  method ExtractSquare(board: Board, perspective: int, row: int, col: int, lists0: (seq<int>, seq<int>))
    returns (lists: (seq<int>, seq<int>))
    requires WellFormed(board.grid) && IsInBounds(row, col)
    requires lists0 == FeaturesUpTo(board.grid, perspective, row * 9 + col)
    ensures lists == FeaturesUpTo(board.grid, perspective, row * 9 + (col + 1))
  {
    FlatRoundTrip(row, col);
    var (ownFeatures, oppFeatures) := lists0;
    lists := lists0;
    var piece := board.GetPiece(row, col);
    if piece.None? {
      return;
    }
    var p := piece.value;
    var pieceType := PIECE_TYPE_INDEX[p];
    var pieceColor := GetPieceColor(p);
    var sq;
    if perspective == RED {
      sq := SquareIndex(row, col);
    } else {
      sq := MirrorSquare(SquareIndex(row, col));
    }
    if pieceColor == perspective {
      ownFeatures := ownFeatures + [FeatureIndex(0, pieceType, sq)];
    } else {
      oppFeatures := oppFeatures + [FeatureIndex(1, pieceType, sq)];
    }
    lists := (ownFeatures, oppFeatures);
  }

  /** The square k holds a piece of colour `perspective` (own) or not (opponent) whose feature is f. */
  predicate FeatureAt(g: Grid, perspective: int, k: int, own: bool, f: int)
    requires WellFormed(g) && 0 <= k < 90
  {
    var s := SquareOf(k);
    g[s.row][s.col].Some? && (GetPieceColor(g[s.row][s.col].value) == perspective) == own
    && f == FeatureOf(g[s.row][s.col].value, k, perspective)
  }

  /** The own list (own) or the opponent list (!own). */
  function Side(lists: (seq<int>, seq<int>), own: bool): seq<int>
  {
    if own then lists.0 else lists.1
  }

  /** One list is exactly the features of that side's pieces among the first n squares. */
  ghost predicate SideExact(g: Grid, perspective: int, n: int, own: bool)
    requires WellFormed(g) && 0 <= n <= 90
  {
    forall f :: f in Side(FeaturesUpTo(g, perspective, n), own) <==>
      exists k :: 0 <= k < n && FeatureAt(g, perspective, k, own, f)
  }

  /**
   * Own features are exactly those of the perspective's pieces and opponent
   * features exactly those of the others.
   */
  lemma {:induction false} FeaturesUpToExact(g: Grid, perspective: int, n: int, own: bool)
    requires WellFormed(g) && 0 <= n <= 90
    ensures SideExact(g, perspective, n, own)
  {
    if n > 0 {
      FeaturesUpToExact(g, perspective, n - 1, own);
      FeaturesStep(g, perspective, n, own);
    }
  }

  lemma FeaturesStep(g: Grid, perspective: int, n: int, own: bool)
    requires WellFormed(g) && 0 < n <= 90
    requires SideExact(g, perspective, n - 1, own)
    ensures SideExact(g, perspective, n, own)
  {
    var prev := Side(FeaturesUpTo(g, perspective, n - 1), own);
    var list := Side(FeaturesUpTo(g, perspective, n), own);
    var s := SquareOf(n - 1);
    var cell := g[s.row][s.col];
    var hit := cell.Some? && (GetPieceColor(cell.value) == perspective) == own;
    var x := if cell.Some? then FeatureOf(cell.value, n - 1, perspective) else 0;
    if hit {
      assert list == prev + [x];
    } else {
      assert list == prev;
    }
    forall f
      ensures f in list <==> exists k :: 0 <= k < n && FeatureAt(g, perspective, k, own, f)
    {
      assert (f in list) == (f in prev || (hit && f == x));
      assert FeatureAt(g, perspective, n - 1, own, f) == (hit && f == x);
      if FeatureAt(g, perspective, n - 1, own, f) {
        assert exists k :: 0 <= k < n && FeatureAt(g, perspective, k, own, f);
      }
    }
  }

  /** A piece's feature lies in [0, 630) when it is the perspective's own and in [630, 1260) otherwise. */
  lemma FeatureOfRange(p: char, k: int, perspective: int)
    requires p in ALL_PIECES && 0 <= k < NUM_SQUARES
    ensures GetPieceColor(p) == perspective ==> 0 <= FeatureOf(p, k, perspective) < 630
    ensures GetPieceColor(p) != perspective ==> 630 <= FeatureOf(p, k, perspective) < INPUT_SIZE
  {
    MirrorSquareSpec(k);
  }

  /**
   * The two lists together hold one feature per occupied square, own
   * features in [0, 630) and opponent features in [630, 1260).
   */
  lemma {:induction false} FeaturesUpToShape(g: Grid, perspective: int, n: int)
    requires WellFormed(g) && 0 <= n <= 90
    ensures |FeaturesUpTo(g, perspective, n).0| + |FeaturesUpTo(g, perspective, n).1| == CountUpTo(g, n)
    ensures forall i :: 0 <= i < |FeaturesUpTo(g, perspective, n).0| ==> 0 <= FeaturesUpTo(g, perspective, n).0[i] < 630
    ensures forall i :: 0 <= i < |FeaturesUpTo(g, perspective, n).1| ==>
      630 <= FeaturesUpTo(g, perspective, n).1[i] < INPUT_SIZE
  {
    if n > 0 {
      FeaturesUpToShape(g, perspective, n - 1);
      var s := SquareOf(n - 1);
      if g[s.row][s.col].Some? {
        FeatureOfRange(g[s.row][s.col].value, n - 1, perspective);
      }
    }
  }

  /** The piece of the other colour: upper case for a Black piece, lower case for a Red one. */
  function Flipped(p: char): char
  {
    if p in RED_PIECES then Lower(p) else Upper(p)
  }

  /**
   * Mirroring is what makes the encoding side-neutral: a piece seen from Red
   * has the feature its colour-swapped twin on the mirrored row has when
   * seen from Black.
   */
  lemma FeatureOfSideNeutral(p: char, row: int, col: int)
    requires p in ALL_PIECES && IsInBounds(row, col)
    ensures Flipped(p) in ALL_PIECES
    ensures FeatureOf(p, SquareIndex(row, col), RED) == FeatureOf(Flipped(p), SquareIndex(9 - row, col), BLACK)
  {
    PieceSetsPartition();
    if p in RED_PIECES {
      PieceCaseCorrespondence(p);
    } else {
      PieceCaseCorrespondence(Upper(p));
    }
    SquareIndexRange(9 - row, col);
    MirrorSquareSpec(SquareIndex(9 - row, col));
  }

  // ----- _classical_evaluate -----

  const KING_TABLE: seq<seq<int>> := [
    [0, 0, 0, 8, 8, 8, 0, 0, 0],
    [0, 0, 0, 6, 8, 6, 0, 0, 0],
    [0, 0, 0, 4, 6, 4, 0, 0, 0],
    [0, 0, 0, 0, 0, 0, 0, 0, 0],
    [0, 0, 0, 0, 0, 0, 0, 0, 0],
    [0, 0, 0, 0, 0, 0, 0, 0, 0],
    [0, 0, 0, 0, 0, 0, 0, 0, 0],
    [0, 0, 0, 0, 0, 0, 0, 0, 0],
    [0, 0, 0, 0, 0, 0, 0, 0, 0],
    [0, 0, 0, 0, 0, 0, 0, 0, 0]]

  const PAWN_TABLE: seq<seq<int>> := [
    [0, 0, 0, 0, 0, 0, 0, 0, 0],
    [0, 0, 0, 0, 0, 0, 0, 0, 0],
    [0, 0, 0, 0, 0, 0, 0, 0, 0],
    [0, 0, -2, 0, 4, 0, -2, 0, 0],
    [2, 0, 8, 0, 8, 0, 8, 0, 2],
    [6, 12, 18, 18, 20, 18, 18, 12, 6],
    [10, 20, 30, 34, 40, 34, 30, 20, 10],
    [14, 26, 42, 60, 80, 60, 42, 26, 14],
    [18, 36, 56, 80, 120, 80, 56, 36, 18],
    [0, 3, 6, 9, 12, 9, 6, 3, 0]]

  const ROOK_TABLE: seq<seq<int>> := [
    [-2, 10, 6, 14, 12, 14, 6, 10, -2],
    [8, 4, 8, 16, 8, 16, 8, 4, 8],
    [4, 8, 6, 14, 12, 14, 6, 8, 4],
    [6, 10, 8, 14, 14, 14, 8, 10, 6],
    [12, 16, 14, 20, 20, 20, 14, 16, 12],
    [12, 14, 12, 18, 18, 18, 12, 14, 12],
    [12, 18, 16, 22, 22, 22, 16, 18, 12],
    [12, 12, 12, 18, 18, 18, 12, 12, 12],
    [16, 20, 18, 24, 26, 24, 18, 20, 16],
    [14, 14, 12, 18, 16, 18, 12, 14, 14]]

  const KNIGHT_TABLE: seq<seq<int>> := [
    [0, -3, 5, 4, 2, 4, 5, -3, 0],
    [-3, 2, 4, 6, 10, 6, 4, 2, -3],
    [4, 6, 10, 15, 16, 15, 10, 6, 4],
    [2, 10, 13, 14, 15, 14, 13, 10, 2],
    [2, 12, 11, 15, 16, 15, 11, 12, 2],
    [0, 5, 13, 12, 12, 12, 13, 5, 0],
    [-3, 2, 5, 5, 5, 5, 5, 2, -3],
    [0, -5, 2, 4, 2, 4, 2, -5, 0],
    [-8, 2, 4, -5, -4, -5, 4, 2, -8],
    [0, -4, 0, 0, 0, 0, 0, -4, 0]]

  const CANNON_TABLE: seq<seq<int>> := [
    [0, 0, 1, 0, -1, 0, 1, 0, 0],
    [0, 1, 0, 0, 0, 0, 0, 1, 0],
    [1, 0, 4, 3, 4, 3, 4, 0, 1],
    [3, 2, 3, 4, 3, 4, 3, 2, 3],
    [3, 2, 5, 4, 6, 4, 5, 2, 3],
    [3, 4, 6, 7, 6, 7, 6, 4, 3],
    [2, 3, 4, 4, 3, 4, 4, 3, 2],
    [0, 0, 0, 1, 1, 1, 0, 0, 0],
    [-1, 1, 1, 1, 0, 1, 1, 1, -1],
    [0, 0, 0, 2, 4, 2, 0, 0, 0]]

  /** Zero except the four palace points of the advisor. */
  const ADVISOR_TABLE: seq<seq<int>> := [
    [0, 0, 0, 0, 2, 0, 0, 0, 0],
    [0, 0, 0, 1, 0, 1, 0, 0, 0],
    [0, 0, 0, 0, 1, 0, 0, 0, 0],
    [0, 0, 0, 0, 0, 0, 0, 0, 0],
    [0, 0, 0, 0, 0, 0, 0, 0, 0],
    [0, 0, 0, 0, 0, 0, 0, 0, 0],
    [0, 0, 0, 0, 0, 0, 0, 0, 0],
    [0, 0, 0, 0, 0, 0, 0, 0, 0],
    [0, 0, 0, 0, 0, 0, 0, 0, 0],
    [0, 0, 0, 0, 0, 0, 0, 0, 0]]

  /** Zero except seven elephant points. */
  const BISHOP_TABLE: seq<seq<int>> := [
    [0, 0, 1, 0, 0, 0, 1, 0, 0],
    [0, 0, 0, 0, 0, 0, 0, 0, 0],
    [-2, 0, 0, 0, 3, 0, 0, 0, -2],
    [0, 0, 0, 0, 0, 0, 0, 0, 0],
    [0, 0, 3, 0, 0, 0, 3, 0, 0],
    [0, 0, 0, 0, 0, 0, 0, 0, 0],
    [0, 0, 0, 0, 0, 0, 0, 0, 0],
    [0, 0, 0, 0, 0, 0, 0, 0, 0],
    [0, 0, 0, 0, 0, 0, 0, 0, 0],
    [0, 0, 0, 0, 0, 0, 0, 0, 0]]

  /** A table of ten rows of nine entries. */
  predicate IsPst(t: seq<seq<int>>)
  {
    |t| == 10 && forall i :: 0 <= i < 10 ==> |t[i]| == 9
  }

  /** The table self.pst holds for an upper-case type letter, None for any other character. */
  function PstOf(kind: char): (t: Option<seq<seq<int>>>)
    ensures t.Some? ==> IsPst(t.value)
  {
    if kind == 'K' then Some(KING_TABLE)
    else if kind == 'P' then Some(PAWN_TABLE)
    else if kind == 'R' then Some(ROOK_TABLE)
    else if kind == 'N' then Some(KNIGHT_TABLE)
    else if kind == 'C' then Some(CANNON_TABLE)
    else if kind == 'A' then Some(ADVISOR_TABLE)
    else if kind == 'B' then Some(BISHOP_TABLE)
    else None
  }

  /** The table entry of a piece: its own row for Red, the mirrored row for any other colour, 0 without a table. */
  function PstValue(p: char, row: int, col: int): int
    requires IsInBounds(row, col)
  {
    match PstOf(Upper(p))
    case None => 0
    case Some(t) => if GetPieceColor(p) == RED then t[row][col] else t[BOARD_ROWS - 1 - row][col]
  }

  /** The material of a piece, with 100 more for a Red pawn past row 4 or a Black pawn on rows 0-4. */
  function ClassicalMaterial(p: char, row: int): int
  {
    var material := if p in PIECE_VALUES then PIECE_VALUES[p] else 0;
    var color := GetPieceColor(p);
    if Upper(p) == 'P' && ((color == RED && row > RIVER_ROW) || (color == BLACK && row <= RIVER_ROW))
    then material + 100
    else material
  }

  /** What the piece on square k, if any, adds to the score seen from `perspective`. */
  function ClassicalCell(g: Grid, k: int, perspective: int): int
    requires 0 <= k < 90
  {
    var s := SquareOf(k);
    match g[s.row][s.col]
    case None => 0
    case Some(p) =>
      var pieceValue := ClassicalMaterial(p, s.row) + PstValue(p, s.row, s.col);
      if GetPieceColor(p) == perspective then pieceValue else -pieceValue
  }

  /** The score after the first n squares in row-major order. */
  function ClassicalUpTo(g: Grid, perspective: int, n: int): int
    requires 0 <= n <= 90
  {
    if n == 0 then 0 else ClassicalUpTo(g, perspective, n - 1) + ClassicalCell(g, n - 1, perspective)
  }

  /** _classical_evaluate. */
  method ClassicalEvaluate(board: Board, perspective: int) returns (score: int)
    ensures score == ClassicalUpTo(board.grid, perspective, 90)
  {
    score := 0;
    for row := 0 to BOARD_ROWS
      invariant score == ClassicalUpTo(board.grid, perspective, row * 9)
    {
      score := ClassicalRow(board, perspective, row, score);
    }
  }

  /** The column loop of _classical_evaluate over one row. */
  method ClassicalRow(board: Board, perspective: int, row: int, score0: int) returns (score: int)
    requires 0 <= row < 10 && score0 == ClassicalUpTo(board.grid, perspective, row * 9)
    ensures score == ClassicalUpTo(board.grid, perspective, (row + 1) * 9)
  {
    score := score0;
    for col := 0 to BOARD_COLS
      invariant score == ClassicalUpTo(board.grid, perspective, row * 9 + col)
    {
      score := ClassicalSquare(board, perspective, row, col, score);
    }
  }

  /** The body of the column loop. */
  method ClassicalSquare(board: Board, perspective: int, row: int, col: int, score0: int) returns (score: int)
    requires IsInBounds(row, col) && score0 == ClassicalUpTo(board.grid, perspective, Flat(row, col))
    ensures score == ClassicalUpTo(board.grid, perspective, Flat(row, col) + 1)
  {
    FlatRoundTrip(row, col);
    score := score0;
    var piece := board.GetPiece(row, col);
    if piece.None? {
      return;
    }
    var p := piece.value;
    var pieceType := Upper(p);
    var pieceColor := GetPieceColor(p);
    var material := if p in PIECE_VALUES then PIECE_VALUES[p] else 0;
    var pstValue := 0;
    var table := PstOf(pieceType);
    if table.Some? {
      if pieceColor == RED {
        pstValue := table.value[row][col];
      } else {
        pstValue := table.value[BOARD_ROWS - 1 - row][col];
      }
    }
    if pieceType == 'P' {
      if pieceColor == RED && row > RIVER_ROW {
        material := material + 100;
      } else if pieceColor == BLACK && row <= RIVER_ROW {
        material := material + 100;
      }
    }
    var pieceValue := material + pstValue;
    if pieceColor == perspective {
      score := score + pieceValue;
    } else {
      score := score - pieceValue;
    }
  }

  /**
   * A Black piece on (row, col) is worth what its Red twin is worth on the
   * mirrored row (9 - row): the table is read upside down and the pawn's
   * river bonus applies on the mirrored half.
   */
  lemma ClassicalValueMirrored(p: char, row: int, col: int)
    requires p in RED_PIECES && IsInBounds(row, col)
    ensures ClassicalMaterial(Lower(p), row) + PstValue(Lower(p), row, col)
         == ClassicalMaterial(p, 9 - row) + PstValue(p, 9 - row, col)
  {
    PieceCaseCorrespondence(p);
    PieceValuesColourBlind(p);
  }

  lemma ClassicalCellAntisymmetric(g: Grid, k: int)
    requires WellFormed(g) && 0 <= k < 90
    ensures ClassicalCell(g, k, RED) == -ClassicalCell(g, k, BLACK)
  {
    PieceSetsPartition();
  }

  /** Seen from Black, the classical score is exactly the negation of the score seen from Red. */
  lemma {:induction false} ClassicalAntisymmetric(g: Grid, n: int)
    requires WellFormed(g) && 0 <= n <= 90
    ensures ClassicalUpTo(g, RED, n) == -ClassicalUpTo(g, BLACK, n)
  {
    if n > 0 {
      ClassicalAntisymmetric(g, n - 1);
      ClassicalCellAntisymmetric(g, n - 1);
    }
  }

  /** A board without pieces scores 0 from either side. */
  lemma {:induction false} ClassicalEmpty(g: Grid, perspective: int, n: int)
    requires 0 <= n <= 90
    requires forall r, c :: 0 <= r < 10 && 0 <= c < 9 ==> g[r][c].None?
    ensures ClassicalUpTo(g, perspective, n) == 0
  {
    if n > 0 {
      ClassicalEmpty(g, perspective, n - 1);
      var s := SquareOf(n - 1);
      assert g[s.row][s.col].None?;
    }
  }
}
