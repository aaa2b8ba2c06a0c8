/**
 * The board grid as a value: ten rows of nine optional pieces, with the
 * accessors of core/board.py (get_piece, set_piece, the cell effect of
 * move_piece) and the row-major scans find_king and get_all_pieces, stated
 * as functions that the Board class's methods are proved against.
 */
module Grids {
  import opened Wrappers
  import opened Constants

  /** A square holds no piece or one piece character. */
  type Cell = Option<char>
  type Row = r: seq<Cell> | |r| == 9 witness [None, None, None, None, None, None, None, None, None]
  /** Row 0 is Red's back rank, row 9 Black's. */
  type Grid = g: seq<Row> | |g| == 10 witness seq(10, _ => EMPTY_ROW)

  datatype Square = Square(row: int, col: int)
  datatype Move = Move(from: Square, to: Square)
  /** One entry of get_all_pieces: a square and the piece on it. */
  datatype Placed = Placed(row: int, col: int, piece: char)

  const EMPTY_ROW: Row := [None, None, None, None, None, None, None, None, None]
  const EMPTY_GRID: Grid := [EMPTY_ROW, EMPTY_ROW, EMPTY_ROW, EMPTY_ROW, EMPTY_ROW,
                            EMPTY_ROW, EMPTY_ROW, EMPTY_ROW, EMPTY_ROW, EMPTY_ROW]

  /** Every cell is empty or a piece character: the only cells the board ever holds. */
  predicate WellFormed(g: Grid)
  {
    forall r, c :: 0 <= r < 10 && 0 <= c < 9 ==> g[r][c].None? || g[r][c].value in ALL_PIECES
  }

  function GetPiece(g: Grid, row: int, col: int): Cell
  {
    if IsInBounds(row, col) then g[row][col] else None
  }

  function SetPiece(g: Grid, row: int, col: int, piece: Cell): Grid
  {
    if IsInBounds(row, col) then g[row := g[row][col := piece]] else g
  }

  /** The grid after move_piece: the source piece lands on the target and the source empties. */
  function MovedGrid(g: Grid, m: Move): Grid
  {
    var piece := GetPiece(g, m.from.row, m.from.col);
    SetPiece(SetPiece(g, m.to.row, m.to.col, piece), m.from.row, m.from.col, None)
  }

  /** set_piece changes the one in-bounds square it names and nothing else. */
  lemma GetAfterSet(g: Grid, row: int, col: int, piece: Cell, r: int, c: int)
    ensures GetPiece(SetPiece(g, row, col, piece), r, c)
         == if IsInBounds(row, col) && r == row && c == col then piece else GetPiece(g, r, c)
  {
  }

  /** The cells after a move: source empty, target holds the moved piece, every other square unchanged. */
  lemma MovedGridCells(g: Grid, m: Move, r: int, c: int)
    ensures GetPiece(MovedGrid(g, m), r, c)
         == if IsInBounds(m.from.row, m.from.col) && r == m.from.row && c == m.from.col then None
            else if IsInBounds(m.to.row, m.to.col) && r == m.to.row && c == m.to.col
            then GetPiece(g, m.from.row, m.from.col)
            else GetPiece(g, r, c)
  {
    var mid := SetPiece(g, m.to.row, m.to.col, GetPiece(g, m.from.row, m.from.col));
    GetAfterSet(g, m.to.row, m.to.col, GetPiece(g, m.from.row, m.from.col), r, c);
    GetAfterSet(mid, m.from.row, m.from.col, None, r, c);
  }

  lemma SetPreservesWellFormed(g: Grid, row: int, col: int, piece: Cell)
    requires WellFormed(g)
    requires piece.None? || piece.value in ALL_PIECES
    ensures WellFormed(SetPiece(g, row, col, piece))
  {
  }

  lemma MovePreservesWellFormed(g: Grid, m: Move)
    requires WellFormed(g)
    ensures WellFormed(MovedGrid(g, m))
  {
    var piece := GetPiece(g, m.from.row, m.from.col);
    SetPreservesWellFormed(g, m.to.row, m.to.col, piece);
    SetPreservesWellFormed(SetPiece(g, m.to.row, m.to.col, piece), m.from.row, m.from.col, None);
  }

  // ----- Row-major scans -----

  /** The k-th square in row-major order (row 0 first, columns left to right). */
  function SquareOf(k: int): Square
  {
    Square(k / 9, k % 9)
  }

  function Flat(row: int, col: int): int
  {
    row * 9 + col
  }

  lemma FlatRoundTrip(row: int, col: int)
    requires 0 <= col < 9
    ensures SquareOf(Flat(row, col)) == Square(row, col)
  {
  }

  /** The piece characters get_all_pieces keeps: Red's set for RED, Black's for any other colour. */
  function TargetSet(color: int): set<char>
  {
    if color == RED then RED_PIECES else BLACK_PIECES
  }

  /** The pieces of `target` among the first n squares in row-major order. */
  function PiecesUpTo(g: Grid, target: set<char>, n: int): seq<Placed>
    requires 0 <= n <= 90
  {
    if n == 0 then []
    else
      var s := SquareOf(n - 1);
      var cell := g[s.row][s.col];
      PiecesUpTo(g, target, n - 1)
        + (if cell.Some? && cell.value in target then [Placed(s.row, s.col, cell.value)] else [])
  }

  /** Specification of get_all_pieces. */
  function AllPieces(g: Grid, color: int): seq<Placed>
  {
    PiecesUpTo(g, TargetSet(color), 90)
  }

  /** Every listed entry is an in-bounds square before n holding that very piece of `target`. */
  lemma {:induction false} PiecesUpToSound(g: Grid, target: set<char>, n: int)
    requires 0 <= n <= 90
    ensures forall p :: p in PiecesUpTo(g, target, n) ==>
      0 <= p.row < 10 && 0 <= p.col < 9 && Flat(p.row, p.col) < n
      && g[p.row][p.col] == Some(p.piece) && p.piece in target
  {
    if n > 0 {
      PiecesUpToSound(g, target, n - 1);
      var s := SquareOf(n - 1);
      assert Flat(s.row, s.col) == n - 1;
    }
  }

  /** Every square before n holding a piece of `target` is listed. */
  lemma {:induction false} PiecesUpToComplete(g: Grid, target: set<char>, n: int)
    requires 0 <= n <= 90
    ensures forall r, c :: (0 <= r < 10 && 0 <= c < 9 && Flat(r, c) < n
      && g[r][c].Some? && g[r][c].value in target) ==> Placed(r, c, g[r][c].value) in PiecesUpTo(g, target, n)
  {
    if n > 0 {
      PiecesUpToComplete(g, target, n - 1);
      var prev := PiecesUpTo(g, target, n - 1);
      forall r, c | 0 <= r < 10 && 0 <= c < 9 && Flat(r, c) < n && g[r][c].Some? && g[r][c].value in target
        ensures Placed(r, c, g[r][c].value) in PiecesUpTo(g, target, n)
      {
        if Flat(r, c) == n - 1 {
          FlatRoundTrip(r, c);
        } else {
          assert Placed(r, c, g[r][c].value) in prev;
        }
      }
    }
  }

  /** The entries are in strictly increasing row-major order. */
  lemma {:induction false} PiecesUpToOrdered(g: Grid, target: set<char>, n: int)
    requires 0 <= n <= 90
    ensures forall i, j :: 0 <= i < j < |PiecesUpTo(g, target, n)| ==>
      Flat(PiecesUpTo(g, target, n)[i].row, PiecesUpTo(g, target, n)[i].col)
        < Flat(PiecesUpTo(g, target, n)[j].row, PiecesUpTo(g, target, n)[j].col)
  {
    if n > 0 {
      PiecesUpToOrdered(g, target, n - 1);
      PiecesUpToSound(g, target, n - 1);
      var prev := PiecesUpTo(g, target, n - 1);
      var s := SquareOf(n - 1);
      assert Flat(s.row, s.col) == n - 1;
      forall i | 0 <= i < |prev|
        ensures Flat(prev[i].row, prev[i].col) < n - 1
      {
        assert prev[i] in prev;
      }
    }
  }

  /**
   * get_all_pieces(color) lists exactly the squares holding that colour's
   * pieces, each once, in row-major order.
   */
  lemma AllPiecesExact(g: Grid, color: int)
    ensures forall p :: p in AllPieces(g, color) <==>
      IsInBounds(p.row, p.col) && GetPiece(g, p.row, p.col) == Some(p.piece) && p.piece in TargetSet(color)
    ensures forall i, j :: 0 <= i < j < |AllPieces(g, color)| ==>
      Flat(AllPieces(g, color)[i].row, AllPieces(g, color)[i].col)
        < Flat(AllPieces(g, color)[j].row, AllPieces(g, color)[j].col)
  {
    PiecesUpToSound(g, TargetSet(color), 90);
    PiecesUpToComplete(g, TargetSet(color), 90);
    PiecesUpToOrdered(g, TargetSet(color), 90);
  }

  /** The first square at flat index k or later that holds `king`. */
  function FindFrom(g: Grid, king: char, k: int): Option<Square>
    requires 0 <= k <= 90
    decreases 90 - k
  {
    if k == 90 then None
    else if g[SquareOf(k).row][SquareOf(k).col] == Some(king) then Some(SquareOf(k))
    else FindFrom(g, king, k + 1)
  }

  function KingChar(color: int): char
  {
    if color == RED then 'K' else 'k'
  }

  /** Specification of find_king. */
  function FindKing(g: Grid, color: int): Option<Square>
  {
    FindFrom(g, KingChar(color), 0)
  }

  lemma {:induction false} FindFromFirst(g: Grid, king: char, k: int)
    requires 0 <= k <= 90
    ensures FindFrom(g, king, k).Some? ==>
      var s := FindFrom(g, king, k).value;
      IsInBounds(s.row, s.col) && g[s.row][s.col] == Some(king) && k <= Flat(s.row, s.col)
      && forall r, c :: 0 <= r < 10 && 0 <= c < 9 && k <= Flat(r, c) < Flat(s.row, s.col) ==> g[r][c] != Some(king)
    ensures FindFrom(g, king, k).None? ==>
      forall r, c :: 0 <= r < 10 && 0 <= c < 9 && k <= Flat(r, c) ==> g[r][c] != Some(king)
    decreases 90 - k
  {
    if k < 90 {
      FindFromFirst(g, king, k + 1);
      forall r, c | 0 <= r < 10 && 0 <= c < 9 && Flat(r, c) == k
        ensures SquareOf(k) == Square(r, c)
      {
        FlatRoundTrip(r, c);
      }
    }
  }

  /** find_king returns the first king square in row-major order, or None when that king is absent. */
  lemma FindKingFirst(g: Grid, color: int)
    ensures FindKing(g, color).Some? ==>
      var s := FindKing(g, color).value;
      IsInBounds(s.row, s.col) && GetPiece(g, s.row, s.col) == Some(KingChar(color))
      && forall r, c :: 0 <= r < 10 && 0 <= c < 9 && Flat(r, c) < Flat(s.row, s.col) ==> g[r][c] != Some(KingChar(color))
    ensures FindKing(g, color).None? <==>
      forall r, c :: 0 <= r < 10 && 0 <= c < 9 ==> g[r][c] != Some(KingChar(color))
  {
    FindFromFirst(g, KingChar(color), 0);
  }

  // ----- Counting pieces (the measure that captures decrease) -----

  function CountUpTo(g: Grid, n: int): nat
    requires 0 <= n <= 90
  {
    if n == 0 then 0
    else CountUpTo(g, n - 1) + (if g[SquareOf(n - 1).row][SquareOf(n - 1).col].Some? then 1 else 0)
  }

  /** The number of occupied squares. */
  function PieceCount(g: Grid): nat
  {
    CountUpTo(g, 90)
  }

  function Occupied(c: Cell): int
  {
    if c.Some? then 1 else 0
  }

  lemma {:induction false} CountAfterSet(g: Grid, row: int, col: int, piece: Cell, n: int)
    requires IsInBounds(row, col) && 0 <= n <= 90
    ensures CountUpTo(SetPiece(g, row, col, piece), n)
         == CountUpTo(g, n) + (if Flat(row, col) < n then Occupied(piece) - Occupied(g[row][col]) else 0)
  {
    if n > 0 {
      CountAfterSet(g, row, col, piece, n - 1);
      FlatRoundTrip(row, col);
    }
  }

  /** A move onto an occupied square (a capture) removes exactly one piece from the board. */
  lemma CaptureShrinksBoard(g: Grid, m: Move)
    requires IsInBounds(m.from.row, m.from.col) && IsInBounds(m.to.row, m.to.col)
    requires m.from != m.to
    requires GetPiece(g, m.from.row, m.from.col).Some?
    ensures PieceCount(MovedGrid(g, m))
         == PieceCount(g) - (if GetPiece(g, m.to.row, m.to.col).Some? then 1 else 0)
  {
    var piece := GetPiece(g, m.from.row, m.from.col);
    var mid := SetPiece(g, m.to.row, m.to.col, piece);
    CountAfterSet(g, m.to.row, m.to.col, piece, 90);
    CountAfterSet(mid, m.from.row, m.from.col, None, 90);
  }
}
