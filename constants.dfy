/**
 * Board primitives of the Xiangqi engine (core/constants.py): the two colours,
 * the piece characters, piece values, the 10x9 board, the two palaces, the
 * river, and the column names used by Chinese move notation.
 */
module Constants {

  /** Colours are the integers 1 (Red, moves first) and -1 (Black). */
  const RED: int := 1
  const BLACK: int := -1

  /** Upper-case letters are Red pieces, lower-case letters Black ones. */
  const RED_PIECES: set<char> := {'R', 'N', 'B', 'A', 'K', 'C', 'P'}
  const BLACK_PIECES: set<char> := {'r', 'n', 'b', 'a', 'k', 'c', 'p'}
  const ALL_PIECES: set<char> := RED_PIECES + BLACK_PIECES

  /** Material value of each piece; a pawn's value doubles past the river (evaluation). */
  const PIECE_VALUES: map<char, int> := map[
    'R' := 900, 'r' := 900,
    'N' := 400, 'n' := 400,
    'B' := 200, 'b' := 200,
    'A' := 200, 'a' := 200,
    'K' := 10000, 'k' := 10000,
    'C' := 450, 'c' := 450,
    'P' := 100, 'p' := 100]

  const BOARD_ROWS: int := 10
  const BOARD_COLS: int := 9

  /** Inclusive row and column ranges of the two palaces. */
  const RED_PALACE_ROWS: (int, int) := (0, 2)
  const RED_PALACE_COLS: (int, int) := (3, 5)
  const BLACK_PALACE_ROWS: (int, int) := (7, 9)
  const BLACK_PALACE_COLS: (int, int) := (3, 5)

  /** Rows 0..4 are Red's side of the river, rows 5..9 Black's. */
  const RIVER_ROW: int := 4

  const INITIAL_FEN: string := "rnbakabnr/9/1c5c1/p1p1p1p1p/9/9/P1P1P1P1P/1C5C1/9/RNBAKABNR w"

  /** Red counts columns from its right: column c is named by the numeral for 9 - c. */
  const RED_COL_TO_CHINESE: map<int, string> := map[
    0 := "九", 1 := "八", 2 := "七", 3 := "六", 4 := "五",
    5 := "四", 6 := "三", 7 := "二", 8 := "一"]

  /** Black names column c by the Arabic digit c + 1. */
  const BLACK_COL_TO_CHINESE: map<int, string> := map[
    0 := "1", 1 := "2", 2 := "3", 3 := "4", 4 := "5",
    5 := "6", 6 := "7", 7 := "8", 8 := "9"]

  const PIECE_CHINESE_NAMES: map<char, string> := map[
    'R' := "车", 'r' := "车",
    'N' := "马", 'n' := "马",
    'B' := "相", 'b' := "象",
    'A' := "仕", 'a' := "士",
    'K' := "帅", 'k' := "将",
    'C' := "炮", 'c' := "炮",
    'P' := "兵", 'p' := "卒"]

  /** The Chinese numerals one to nine, in order. */
  const CHINESE_DIGITS: string := "一二三四五六七八九"

  /** The colour of a piece character, 0 for anything that is not a piece. */
  function GetPieceColor(piece: char): (color: int)
    ensures color == RED <==> piece in RED_PIECES
    ensures color == BLACK <==> piece in BLACK_PIECES
    ensures color == 0 <==> piece !in ALL_PIECES
  {
    if piece in RED_PIECES then RED
    else if piece in BLACK_PIECES then BLACK
    else 0
  }

  /** `str.upper` on the ASCII letters (piece characters are ASCII). */
  function Upper(c: char): char
  {
    if 'a' <= c <= 'z' then (c as int - 32) as char else c
  }

  /** Inverse of Upper on the ASCII capitals. */
  function Lower(c: char): char
  {
    if 'A' <= c <= 'Z' then (c as int + 32) as char else c
  }

  predicate IsInBounds(row: int, col: int)
  {
    0 <= row < BOARD_ROWS && 0 <= col < BOARD_COLS
  }

  /** Red's palace for RED; any other colour is checked against Black's palace. */
  predicate IsInPalace(row: int, col: int, color: int)
  {
    if color == RED then
      RED_PALACE_ROWS.0 <= row <= RED_PALACE_ROWS.1 && RED_PALACE_COLS.0 <= col <= RED_PALACE_COLS.1
    else
      BLACK_PALACE_ROWS.0 <= row <= BLACK_PALACE_ROWS.1 && BLACK_PALACE_COLS.0 <= col <= BLACK_PALACE_COLS.1
  }

  /** Whether an elephant may stand on `row`; every other piece may stand anywhere. */
  predicate CanCrossRiver(piece: char, row: int)
  {
    var color := GetPieceColor(piece);
    if Upper(piece) == 'B' then
      if color == RED then row <= RIVER_ROW else row >= RIVER_ROW + 1
    else
      true
  }

  lemma PalaceInsideBoard(row: int, col: int, color: int)
    ensures IsInPalace(row, col, color) ==> IsInBounds(row, col)
    ensures IsInPalace(row, col, color) ==> 3 <= col <= 5
  {
  }

  lemma PalacesDisjoint(row: int, col: int)
    ensures !(IsInPalace(row, col, RED) && IsInPalace(row, col, BLACK))
  {
  }

  lemma ElephantStaysHome(row: int)
    ensures CanCrossRiver('B', row) <==> row <= 4
    ensures CanCrossRiver('b', row) <==> row >= 5
  {
  }

  lemma OnlyElephantsAreConfined(piece: char, row: int)
    requires piece != 'B' && piece != 'b'
    ensures CanCrossRiver(piece, row)
  {
  }

  lemma PieceSetsPartition()
    ensures RED_PIECES !! BLACK_PIECES
    ensures ALL_PIECES == RED_PIECES + BLACK_PIECES
  {
  }

  /** Red and Black pieces correspond one to one through the letter case. */
  lemma PieceCaseCorrespondence(p: char)
    ensures p in RED_PIECES ==> Lower(p) in BLACK_PIECES && Upper(Lower(p)) == p
    ensures p in BLACK_PIECES ==> Upper(p) in RED_PIECES && Lower(Upper(p)) == p
  {
  }

  /** Every piece character, and nothing else, has a value. */
  lemma PieceValueKeys()
    ensures PIECE_VALUES.Keys == ALL_PIECES
  {
    assert forall p :: p in PIECE_VALUES.Keys ==> p in ALL_PIECES;
  }

  /** A Red piece and its Black counterpart are worth the same, between 100 and 10000. */
  lemma PieceValuesColourBlind(p: char)
    requires p in RED_PIECES
    ensures p in PIECE_VALUES && Lower(p) in PIECE_VALUES
    ensures PIECE_VALUES[p] == PIECE_VALUES[Lower(p)]
    ensures 100 <= PIECE_VALUES[p] <= 10000
  {
  }

  lemma ColumnNames(c: int)
    requires 0 <= c < BOARD_COLS
    ensures c in RED_COL_TO_CHINESE && RED_COL_TO_CHINESE[c] == [CHINESE_DIGITS[8 - c]]
    ensures c in BLACK_COL_TO_CHINESE && BLACK_COL_TO_CHINESE[c] == [('0' as int + c + 1) as char]
  {
  }
}
