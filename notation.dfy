/**
 * Chinese move notation (core/notation.py): the piece, its column or a
 * front/back prefix, a direction (进 forward, 退 back, 平 sideways) and
 * either a target column or a distance, e.g. "炮二平五".
 */
module Notation {
  import opened Wrappers
  import opened Constants
  import opened Grids
  import opened Text
  import opened Boards
  import opened Seqs

  /** The column name the colour uses: Red counts from its right in numerals, Black in digits. */
  function ColName(color: int, c: int): string
    requires 0 <= c < 9
  {
    if color == RED then RED_COL_TO_CHINESE[c] else BLACK_COL_TO_CHINESE[c]
  }

  const CHINESE_NUMBERS: map<int, string> := map[
    1 := "一", 2 := "二", 3 := "三", 4 := "四", 5 := "五",
    6 := "六", 7 := "七", 8 := "八", 9 := "九", 10 := "十"]

  /** _number_to_chinese: Red writes 1..10 as Chinese numerals and anything else as digits; Black always uses digits. */
  function NumberToChinese(num: nat, color: int): string
  {
    if color == RED then (if num in CHINESE_NUMBERS then CHINESE_NUMBERS[num] else NatToString(num))
    else NatToString(num)
  }

  /**
   * Red's distances 1..10 are single Chinese numerals; every other distance,
   * and every Black distance, is written in decimal digits that read back
   * as the distance.
   */
  lemma NumberToChineseSpec(num: nat, color: int)
    ensures color == RED && 1 <= num <= 10 ==>
      |NumberToChinese(num, color)| == 1 && NumberToChinese(num, color) == CHINESE_NUMBERS[num]
    ensures !(color == RED && 1 <= num <= 10) ==>
      (forall i :: 0 <= i < |NumberToChinese(num, color)| ==> IsDigit(NumberToChinese(num, color)[i]))
      && DigitsValue(NumberToChinese(num, color)) == num
  {
    if color == RED && 1 <= num <= 10 {
      RedNumeralIsOneChar(num);
    } else {
      assert NumberToChinese(num, color) == NatToString(num);
      NatToStringRoundTrip(num);
    }
  }

  lemma RedNumeralIsOneChar(num: int)
    requires 1 <= num <= 10
    ensures num in CHINESE_NUMBERS && |CHINESE_NUMBERS[num]| == 1
  {
  }

  /** Red's numerals for 1..9 are the digits used for Red's columns, in order. */
  lemma RedNumeralsMatchDigits(num: int)
    requires 1 <= num <= 9
    ensures NumberToChinese(num, RED) == [CHINESE_DIGITS[num - 1]]
  {
  }

  // ----- Position prefix -----

  /** The rows r < n of column `col` holding exactly `piece`, in increasing order. */
  function SameRowsUpTo(g: Grid, col: int, piece: char, n: int): seq<int>
    requires 0 <= n <= 10
  {
    if n == 0 then []
    else SameRowsUpTo(g, col, piece, n - 1) + (if GetPiece(g, n - 1, col) == Some(piece) then [n - 1] else [])
  }

  predicate StrictlyIncreasing(xs: seq<int>)
  {
    forall i, j :: 0 <= i < j < |xs| ==> xs[i] < xs[j]
  }

  predicate StrictlyDecreasing(xs: seq<int>)
  {
    forall i, j :: 0 <= i < j < |xs| ==> xs[i] > xs[j]
  }

  /**
   * `list.sort(reverse=descending)` on a list of distinct rows already in
   * increasing order: the list itself, or its reverse.
   */
  function SortRows(xs: seq<int>, descending: bool): seq<int>
    requires StrictlyIncreasing(xs)
  {
    if descending then Reverse(xs) else xs
  }

  /** SortRows returns the same rows, in decreasing order when asked for, increasing otherwise. */
  lemma SortRowsSorts(xs: seq<int>, descending: bool)
    requires StrictlyIncreasing(xs)
    ensures multiset(SortRows(xs, descending)) == multiset(xs)
    ensures descending ==> StrictlyDecreasing(SortRows(xs, descending))
    ensures !descending ==> StrictlyIncreasing(SortRows(xs, descending))
  {
    if descending {
      ReverseMultiset(xs);
    }
  }

  /** `list.index`: the first position of x. */
  function IndexOf(xs: seq<int>, x: int): (i: nat)
    requires x in xs
    ensures i < |xs| && xs[i] == x && forall j :: 0 <= j < i ==> xs[j] != x
  {
    if xs[0] == x then 0 else 1 + IndexOf(xs[1..], x)
  }

  /** The prefix for the piece at position idx of n identical pieces in a column (n >= 2). */
  function PrefixFor(n: int, idx: int): string
    requires 2 <= n && 0 <= idx < n
  {
    if n == 2 then (if idx == 0 then "前" else "后")
    else if n == 3 then ["前", "中", "后"][idx]
    else if n == 4 then ["前", "二", "三", "四"][idx]
    else if idx < 5 then ["前", "二", "三", "四", "五"][idx]
    else "后"
  }

  lemma {:induction false} SameRowsExact(g: Grid, col: int, piece: char, n: int)
    requires 0 <= n <= 10
    ensures forall r :: r in SameRowsUpTo(g, col, piece, n) <==> 0 <= r < n && GetPiece(g, r, col) == Some(piece)
    ensures forall x :: x in SameRowsUpTo(g, col, piece, n) ==> x < n
    ensures StrictlyIncreasing(SameRowsUpTo(g, col, piece, n))
  {
    if n > 0 {
      SameRowsExact(g, col, piece, n - 1);
      var prev := SameRowsUpTo(g, col, piece, n - 1);
      assert forall i :: 0 <= i < |prev| ==> prev[i] < n - 1 by {
        forall i | 0 <= i < |prev|
          ensures prev[i] < n - 1
        {
          assert prev[i] in prev;
        }
      }
    }
  }

  /** _get_position_prefix. */
  function PositionPrefix(g: Grid, row: int, col: int, piece: char, color: int): string
    requires 0 <= row < 10 && GetPiece(g, row, col) == Some(piece)
  {
    var same := SameRowsUpTo(g, col, piece, 10);
    SameRowsExact(g, col, piece, 10);
    if |same| <= 1 then ""
    else
      var sorted := SortRows(same, color == RED);
      SortRowsSorts(same, color == RED);
      assert row in multiset(sorted);
      PrefixFor(|sorted|, IndexOf(sorted, row))
  }

  /** The rows of the column holding the piece, in increasing order. */
  function SameRows(g: Grid, col: int, piece: char): seq<int>
  {
    SameRowsUpTo(g, col, piece, 10)
  }

  lemma PrefixEmptyIffFewRows(g: Grid, row: int, col: int, piece: char, color: int)
    requires 0 <= row < 10 && GetPiece(g, row, col) == Some(piece)
    ensures PositionPrefix(g, row, col, piece, color) == "" <==> |SameRows(g, col, piece)| <= 1
  {
  }

  /** No prefix exactly when no other square of the column holds the same piece. */
  lemma PrefixEmptyIffAlone(g: Grid, row: int, col: int, piece: char, color: int)
    requires 0 <= row < 10 && GetPiece(g, row, col) == Some(piece)
    ensures PositionPrefix(g, row, col, piece, color) == "" <==>
      forall r :: 0 <= r < 10 && r != row ==> GetPiece(g, r, col) != Some(piece)
  {
    PrefixEmptyIffFewRows(g, row, col, piece, color);
    var same := SameRows(g, col, piece);
    SameRowsExact(g, col, piece, 10);
    assert row in same;
    if |same| > 1 {
      var other := if same[0] == row then same[1] else same[0];
      assert other in same && other != row;
    } else {
      assert same == [row];
    }
  }

  lemma FirstThree(xs: seq<int>)
    requires StrictlyIncreasing(xs) && |xs| > 2
    ensures xs[0] < xs[1] < xs[2] && xs[0] in xs && xs[1] in xs && xs[2] in xs
  {
  }

  /** A strictly increasing list made of exactly two values lists them in order. */
  lemma IncreasingPair(xs: seq<int>, low: int, high: int)
    requires StrictlyIncreasing(xs) && low < high
    requires low in xs && high in xs
    requires forall x :: x in xs ==> x == low || x == high
    ensures xs == [low, high]
  {
    if |xs| > 2 {
      FirstThree(xs);
      assert false;
    }
    assert xs[0] in xs && xs[1] in xs;
  }

  /**
   * With exactly two identical pieces in a column, the one nearer the enemy
   * (the higher row for Red, the lower row for Black) is 前 and the other 后.
   */
  lemma PrefixOfPair(g: Grid, col: int, piece: char, color: int, low: int, high: int)
    requires 0 <= low < high < 10
    requires GetPiece(g, low, col) == Some(piece) && GetPiece(g, high, col) == Some(piece)
    requires forall r :: 0 <= r < 10 && r != low && r != high ==> GetPiece(g, r, col) != Some(piece)
    ensures PositionPrefix(g, high, col, piece, color) == (if color == RED then "前" else "后")
    ensures PositionPrefix(g, low, col, piece, color) == (if color == RED then "后" else "前")
  {
    SameRowsExact(g, col, piece, 10);
    IncreasingPair(SameRows(g, col, piece), low, high);
    if color == RED {
      assert Reverse([low, high]) == [high, low];
    }
  }

  // ----- The move string -----

  /** The two characters naming the moving piece: its prefix and name, or its name and column. */
  function PieceLabel(g: Grid, from: Square, p: char, color: int): string
    requires 0 <= from.row < 10 && 0 <= from.col < 9 && GetPiece(g, from.row, from.col) == Some(p)
  {
    var name := if p in PIECE_CHINESE_NAMES then PIECE_CHINESE_NAMES[p] else "";
    var prefix := PositionPrefix(g, from.row, from.col, p, color);
    if prefix != "" then prefix + name else name + ColName(color, from.col)
  }

  /** The direction word and the target: the target column or the distance along the column. */
  function MoveTail(p: char, color: int, from: Square, to: Square, advance: bool): string
    requires 0 <= to.col < 9
  {
    if to.col == from.col then
      var direction := if advance then "进" else "退";
      var distance := if to.row < from.row then from.row - to.row else to.row - from.row;
      var target := if Upper(p) in {'A', 'B'} then ColName(color, to.col) else NumberToChinese(distance, color);
      direction + target
    else
      "平" + ColName(color, to.col)
  }

  /**
   * The notation with the direction word supplied: `advance` chooses 进
   * over 退 for a move along the column.
   */
  function Compose(g: Grid, from: Square, to: Square, advance: bool): string
    requires GetPiece(g, from.row, from.col).None? || 0 <= to.col < 9
  {
    var piece := GetPiece(g, from.row, from.col);
    if piece.None? then ""
    else
      var p := piece.value;
      var color := GetPieceColor(p);
      PieceLabel(g, from, p, color) + MoveTail(p, color, from, to, advance)
  }

  /** generate_notation as written: 进 whenever the row number grows, for either colour. */
  function Notation(g: Grid, from: Square, to: Square): string
    requires GetPiece(g, from.row, from.col).None? || 0 <= to.col < 9
  {
    Compose(g, from, to, to.row - from.row > 0)
  }

  /** generate_notation with 进 meaning a step toward the opponent: up for Red, down for Black. */
  function CorrectedNotation(g: Grid, from: Square, to: Square): string
    requires GetPiece(g, from.row, from.col).None? || 0 <= to.col < 9
  {
    var piece := GetPiece(g, from.row, from.col);
    var forward := piece.Some? && (if GetPieceColor(piece.value) == RED then to.row > from.row else to.row < from.row);
    Compose(g, from, to, forward)
  }

  /**
   * The shape of every notation for a named piece: two characters naming the
   * piece (prefix and name, or name and column), one direction character,
   * then the target: the column for sideways moves and for advisors and
   * elephants, otherwise the distance. An empty square gives "".
   */
  lemma ComposeShape(g: Grid, from: Square, to: Square, advance: bool)
    requires GetPiece(g, from.row, from.col).None? || 0 <= to.col < 9
    ensures GetPiece(g, from.row, from.col).None? ==> Compose(g, from, to, advance) == ""
    ensures GetPiece(g, from.row, from.col).Some? && GetPiece(g, from.row, from.col).value in ALL_PIECES ==>
      var p := GetPiece(g, from.row, from.col).value;
      var color := GetPieceColor(p);
      var s := Compose(g, from, to, advance);
      var prefix := PositionPrefix(g, from.row, from.col, p, color);
      |s| >= 4
      && s[..2] == (if prefix != "" then prefix + PIECE_CHINESE_NAMES[p] else PIECE_CHINESE_NAMES[p] + ColName(color, from.col))
      && (s[2] == '平' <==> to.col != from.col)
      && (to.col == from.col ==> s[2] == (if advance then '进' else '退'))
      && (to.col != from.col || Upper(p) in {'A', 'B'} ==> s[3..] == ColName(color, to.col))
      && (to.col == from.col && Upper(p) !in {'A', 'B'} ==>
            s[3..] == NumberToChinese(if to.row < from.row then from.row - to.row else to.row - from.row, color))
  {
    var piece := GetPiece(g, from.row, from.col);
    if piece.Some? && piece.value in ALL_PIECES {
      var p := piece.value;
      var color := GetPieceColor(p);
      var naming := PieceLabel(g, from, p, color);
      var tail := MoveTail(p, color, from, to, advance);
      LabelIsTwoChars(g, from, p, color);
      TailShape(p, color, from, to, advance);
      var s := naming + tail;
      assert s[..2] == naming && s[2] == tail[0] && s[3..] == tail[1..];
    }
  }

  /** The piece label is two characters: a one-character prefix or column, and the piece's one-character name. */
  lemma LabelIsTwoChars(g: Grid, from: Square, p: char, color: int)
    requires 0 <= from.row < 10 && 0 <= from.col < 9 && GetPiece(g, from.row, from.col) == Some(p)
    requires p in ALL_PIECES
    ensures |PieceLabel(g, from, p, color)| == 2
  {
    PrefixIsOneChar(g, from.row, from.col, p, color);
    ColNameIsOneChar(color, from.col);
    PieceNameIsOneChar(p);
  }

  lemma PieceNameIsOneChar(p: char)
    requires p in ALL_PIECES
    ensures p in PIECE_CHINESE_NAMES && |PIECE_CHINESE_NAMES[p]| == 1
  {
  }

  /** The tail is one direction character followed by a non-empty target. */
  lemma TailShape(p: char, color: int, from: Square, to: Square, advance: bool)
    requires 0 <= to.col < 9
    ensures var t := MoveTail(p, color, from, to, advance);
      |t| >= 2
      && (t[0] == '平' <==> to.col != from.col)
      && (to.col == from.col ==> t[0] == (if advance then '进' else '退'))
      && (to.col != from.col || Upper(p) in {'A', 'B'} ==> t[1..] == ColName(color, to.col))
      && (to.col == from.col && Upper(p) !in {'A', 'B'} ==>
            t[1..] == NumberToChinese(if to.row < from.row then from.row - to.row else to.row - from.row, color))
  {
    ColNameIsOneChar(color, to.col);
    var distance := if to.row < from.row then from.row - to.row else to.row - from.row;
    NumberNonEmpty(distance, color);
  }

  lemma PrefixIsOneChar(g: Grid, row: int, col: int, piece: char, color: int)
    requires 0 <= row < 10 && GetPiece(g, row, col) == Some(piece)
    ensures |PositionPrefix(g, row, col, piece, color)| <= 1
  {
  }

  lemma ColNameIsOneChar(color: int, c: int)
    requires 0 <= c < 9
    ensures |ColName(color, c)| == 1 && ColName(color, c) != "平"
  {
  }

  lemma NumberNonEmpty(num: nat, color: int)
    ensures |NumberToChinese(num, color)| >= 1
  {
  }

  /**
   * As written, a Black piece stepping straight toward Red (to a lower
   * row) is written with 退, "back", although it advances: for example
   * the black pawn on row 6 moving to row 5.
   */
  lemma BlackAdvanceWrittenAsRetreat(g: Grid, from: Square, to: Square)
    requires GetPiece(g, from.row, from.col).Some? && GetPiece(g, from.row, from.col).value in BLACK_PIECES
    requires to.col == from.col && to.row < from.row
    ensures |Notation(g, from, to)| > 2 && Notation(g, from, to)[2] == '退'
    ensures |CorrectedNotation(g, from, to)| > 2 && CorrectedNotation(g, from, to)[2] == '进'
  {
    ComposeShape(g, from, to, false);
    ComposeShape(g, from, to, true);
  }

  /**
   * In the corrected notation a move along the column reads 进 exactly when
   * it goes toward the opponent, for both colours, and 退 otherwise.
   */
  lemma CorrectedDirectionFollowsMover(g: Grid, from: Square, to: Square)
    requires GetPiece(g, from.row, from.col).Some? && GetPiece(g, from.row, from.col).value in ALL_PIECES
    requires 0 <= to.col < 9 && to.col == from.col
    ensures |CorrectedNotation(g, from, to)| > 2
    ensures var color := GetPieceColor(GetPiece(g, from.row, from.col).value);
      |CorrectedNotation(g, from, to)| > 2 && (CorrectedNotation(g, from, to)[2] == '进' <==> (to.row - from.row) * color > 0)
    ensures |CorrectedNotation(g, from, to)| > 2
      && (CorrectedNotation(g, from, to)[2] == '进' || CorrectedNotation(g, from, to)[2] == '退')
  {
    var color := GetPieceColor(GetPiece(g, from.row, from.col).value);
    var forward := if color == RED then to.row > from.row else to.row < from.row;
    ComposeShape(g, from, to, forward);
  }

  /** The notation generator reads the board it was given. */
  class NotationGenerator {
    const board: Board

    constructor (board: Board)
      ensures this.board == board
    {
      this.board := board;
    }

    /** generate_notation. */
    method GenerateNotation(fromPos: Square, toPos: Square) returns (s: string)
      requires board.GetPiece(fromPos.row, fromPos.col).None? || 0 <= toPos.col < 9
      ensures s == Notation(board.grid, fromPos, toPos)
    {
      var piece := board.GetPiece(fromPos.row, fromPos.col);
      if piece.None? {
        return "";
      }
      var p := piece.value;
      var color := GetPieceColor(p);
      var startNotation := StartNotation(fromPos, p, color);
      var direction, target := MoveWords(p, color, fromPos, toPos);
      assert startNotation + direction + target == startNotation + (direction + target);
      return startNotation + direction + target;
    }

    /** The start of generate_notation's string: the position prefix and the name, or the name and the column. */
    method StartNotation(fromPos: Square, p: char, color: int) returns (startNotation: string)
      requires 0 <= fromPos.row < 10 && 0 <= fromPos.col < 9 && board.GetPiece(fromPos.row, fromPos.col) == Some(p)
      ensures startNotation == PieceLabel(board.grid, fromPos, p, color)
    {
      var pieceName := if p in PIECE_CHINESE_NAMES then PIECE_CHINESE_NAMES[p] else "";
      var prefix := GetPositionPrefix(fromPos.row, fromPos.col, p, color);
      startNotation := if prefix != "" then prefix + pieceName else pieceName + ColName(color, fromPos.col);
    }

    /** The direction and target of generate_notation: 进 when the row number grows, 退 otherwise, 平 across columns. */
    method MoveWords(p: char, color: int, fromPos: Square, toPos: Square) returns (direction: string, target: string)
      requires 0 <= toPos.col < 9
      ensures direction + target == MoveTail(p, color, fromPos, toPos, toPos.row - fromPos.row > 0)
    {
      var dr := toPos.row - fromPos.row;
      var dc := toPos.col - fromPos.col;
      if dc == 0 {
        direction := if dr > 0 then "进" else "退";
        var distance := if dr < 0 then -dr else dr;
        if Upper(p) in {'A', 'B'} {
          target := ColName(color, toPos.col);
        } else {
          target := NumberToChinese(distance, color);
        }
      } else {
        direction := "平";
        target := ColName(color, toPos.col);
      }
    }

    /** _get_position_prefix: collect the column's identical pieces, sort them from the mover's side, look up the rank. */
    method GetPositionPrefix(row: int, col: int, piece: char, color: int) returns (prefix: string)
      requires 0 <= row < 10 && board.GetPiece(row, col) == Some(piece)
      ensures prefix == PositionPrefix(board.grid, row, col, piece, color)
    {
      var samePieces: seq<int> := [];
      for r := 0 to BOARD_ROWS
        invariant samePieces == SameRowsUpTo(board.grid, col, piece, r)
      {
        if board.GetPiece(r, col) == Some(piece) {
          samePieces := samePieces + [r];
        }
      }
      SameRowsExact(board.grid, col, piece, 10);
      if |samePieces| <= 1 {
        return "";
      }
      samePieces := SortRows(samePieces, color == RED);
      SortRowsSorts(SameRowsUpTo(board.grid, col, piece, 10), color == RED);
      assert row in multiset(samePieces);
      var idx := IndexOf(samePieces, row);
      return PrefixFor(|samePieces|, idx);
    }
  }
}
