/**
 * Zobrist hashing of ai/search_engine.py (ZobristHash): a 64-bit key for
 * every piece character on every square and one for Black to move. The
 * hash of a position is the XOR of the keys of the pieces on the board,
 * with the side key added when Black is to move. The keys are drawn at
 * random in the source; here they are whatever the constructor is given.
 */
module Zobrist {
  import opened Wrappers
  import opened Constants
  import opened Grids
  import opened Fen
  import opened Boards

  /** Python's `^` on two 64-bit hash values. */
  function Xor(a: bv64, b: bv64): bv64
  {
    a ^ b
  }

  lemma XorAssociative(a: bv64, b: bv64, c: bv64)
    ensures Xor(Xor(a, b), c) == Xor(a, Xor(b, c))
  {
  }

  lemma XorCommutative(a: bv64, b: bv64)
    ensures Xor(a, b) == Xor(b, a)
  {
  }

  lemma XorSelfInverse(a: bv64, b: bv64)
    ensures Xor(Xor(a, b), b) == a
  {
  }

  /** Ninety keys for every piece character, square k = row * 9 + col. */
  predicate KeysShaped(pieceTable: map<char, seq<bv64>>)
  {
    forall p :: p in ALL_PIECES ==> p in pieceTable && |pieceTable[p]| == 90
  }

  /** XOR in the key of the cell's piece at square k; an empty cell changes nothing. */
  function AddCell(pieceTable: map<char, seq<bv64>>, h: bv64, cell: Cell, k: int): bv64
    requires KeysShaped(pieceTable) && PieceOrEmpty(cell) && 0 <= k < 90
  {
    if cell.None? then h else Xor(h, pieceTable[cell.value][k])
  }

  /** Adding the same piece on the same square twice cancels out. */
  lemma AddCellTwice(pieceTable: map<char, seq<bv64>>, h: bv64, cell: Cell, k: int)
    requires KeysShaped(pieceTable) && PieceOrEmpty(cell) && 0 <= k < 90
    ensures AddCell(pieceTable, AddCell(pieceTable, h, cell, k), cell, k) == h
  {
    if cell.Some? {
      XorSelfInverse(h, pieceTable[cell.value][k]);
    }
  }

  /** Keys can be added in either order. */
  lemma AddCellSwap(pieceTable: map<char, seq<bv64>>, h: bv64, c1: Cell, k1: int, c2: Cell, k2: int)
    requires KeysShaped(pieceTable) && PieceOrEmpty(c1) && PieceOrEmpty(c2)
    requires 0 <= k1 < 90 && 0 <= k2 < 90
    ensures AddCell(pieceTable, AddCell(pieceTable, h, c1, k1), c2, k2)
         == AddCell(pieceTable, AddCell(pieceTable, h, c2, k2), c1, k1)
  {
    if c1.Some? && c2.Some? {
      var a, b := pieceTable[c1.value][k1], pieceTable[c2.value][k2];
      XorAssociative(h, a, b);
      XorCommutative(a, b);
      XorAssociative(h, b, a);
    }
  }

  /** The hash of the pieces on the first n squares in row-major order. */
  function GridHash(pieceTable: map<char, seq<bv64>>, g: Grid, n: int): bv64
    requires KeysShaped(pieceTable) && WellFormed(g) && 0 <= n <= 90
  {
    if n == 0 then 0
    else
      var s := SquareOf(n - 1);
      AddCell(pieceTable, GridHash(pieceTable, g, n - 1), g[s.row][s.col], n - 1)
  }

  /** What hash_board returns: the pieces' keys, and the side key iff Black is to move. */
  function BoardHash(pieceTable: map<char, seq<bv64>>, sideToMove: bv64, g: Grid, player: int): bv64
    requires KeysShaped(pieceTable) && WellFormed(g)
  {
    var h := GridHash(pieceTable, g, 90);
    if player == BLACK then Xor(h, sideToMove) else h
  }

  class ZobristHash {
    const pieceTable: map<char, seq<bv64>>
    const sideToMove: bv64

    /** __init__, with the random keys supplied by the caller. */
    constructor (pieceTable: map<char, seq<bv64>>, sideToMove: bv64)
      requires KeysShaped(pieceTable)
      ensures this.pieceTable == pieceTable && this.sideToMove == sideToMove
      ensures Valid()
    {
      this.pieceTable := pieceTable;
      this.sideToMove := sideToMove;
    }

    predicate Valid()
    {
      KeysShaped(pieceTable)
    }

    /** hash_board: XOR over the occupied squares, row by row, then the side key for Black. */
    method HashBoard(board: Board) returns (h: bv64)
      requires Valid() && board.Valid()
      ensures h == BoardHash(pieceTable, sideToMove, board.grid, board.currentPlayer)
    {
      h := 0;
      for row := 0 to BOARD_ROWS
        invariant h == GridHash(pieceTable, board.grid, row * 9)
      {
        h := HashRow(board, row, h);
      }
      if board.currentPlayer == BLACK {
        h := Xor(h, sideToMove);
      }
    }

    /** The column loop of hash_board over one row. */
    method HashRow(board: Board, row: int, h0: bv64) returns (h: bv64)
      requires Valid() && WellFormed(board.grid) && 0 <= row < 10
      requires h0 == GridHash(pieceTable, board.grid, row * 9)
      ensures h == GridHash(pieceTable, board.grid, (row + 1) * 9)
    {
      h := h0;
      ghost var base := row * 9;
      for col := 0 to BOARD_COLS
        invariant h == GridHash(pieceTable, board.grid, base + col)
      {
        h := HashSquare(board, row, col, h);
      }
      assert base + 9 == (row + 1) * 9;
    }

    /** The body of the column loop: XOR in the key of the piece on (row, col), if any. */
    method HashSquare(board: Board, row: int, col: int, h0: bv64) returns (h: bv64)
      requires Valid() && WellFormed(board.grid) && IsInBounds(row, col)
      requires h0 == GridHash(pieceTable, board.grid, row * 9 + col)
      ensures h == GridHash(pieceTable, board.grid, row * 9 + (col + 1))
    {
      FlatRoundTrip(row, col);
      h := h0;
      var piece := board.GetPiece(row, col);
      if piece.Some? {
        var sq := row * BOARD_COLS + col;
        h := Xor(h, pieceTable[piece.value][sq]);
      }
    }

    /** update_piece: XOR in (or out) the key of one piece on one square. */
    function UpdatePiece(h: bv64, piece: char, row: int, col: int): (r: bv64)
      requires Valid() && piece in ALL_PIECES && IsInBounds(row, col)
      ensures r == AddCell(pieceTable, h, Some(piece), Flat(row, col))
      ensures Xor(r, pieceTable[piece][Flat(row, col)]) == h
    {
      var sq := row * BOARD_COLS + col;
      XorSelfInverse(h, pieceTable[piece][sq]);
      Xor(h, pieceTable[piece][sq])
    }

    /** toggle_side: XOR in (or out) the side-to-move key. */
    function ToggleSide(h: bv64): (r: bv64)
      ensures Xor(r, sideToMove) == h
    {
      XorSelfInverse(h, sideToMove);
      Xor(h, sideToMove)
    }

    /** Adding a piece and removing it again gives back the hash. */
    lemma UpdatePieceInvolution(h: bv64, piece: char, row: int, col: int)
      requires Valid() && piece in ALL_PIECES && IsInBounds(row, col)
      ensures UpdatePiece(UpdatePiece(h, piece, row, col), piece, row, col) == h
    {
      AddCellTwice(pieceTable, h, Some(piece), Flat(row, col));
    }

    lemma ToggleSideInvolution(h: bv64)
      ensures ToggleSide(ToggleSide(h)) == h
    {
      XorSelfInverse(h, sideToMove);
    }

    /**
     * Passing the turn (what the null move does to the copied board) changes
     * the hash by exactly the side key, in both directions.
     */
    lemma PassTurnTogglesSide(g: Grid, player: int)
      requires Valid() && WellFormed(g) && player in {RED, BLACK}
      ensures BoardHash(pieceTable, sideToMove, g, -player)
           == ToggleSide(BoardHash(pieceTable, sideToMove, g, player))
    {
      if player == BLACK {
        XorSelfInverse(GridHash(pieceTable, g, 90), sideToMove);
      }
    }

    /**
     * The incremental update update_piece exists for: after a move the hash
     * is the old one with the mover taken off its source, the victim (if
     * any) taken off the target, and the mover put on the target.
     */
    lemma MoveUpdatesHash(g: Grid, m: Move)
      requires Valid() && WellFormed(g)
      requires IsInBounds(m.from.row, m.from.col) && IsInBounds(m.to.row, m.to.col) && m.from != m.to
      requires g[m.from.row][m.from.col].Some?
      ensures WellFormed(MovedGrid(g, m))
      ensures var piece := g[m.from.row][m.from.col].value;
              var captured := g[m.to.row][m.to.col];
              var h1 := UpdatePiece(GridHash(pieceTable, g, 90), piece, m.from.row, m.from.col);
              var h2 := if captured.Some? then UpdatePiece(h1, captured.value, m.to.row, m.to.col) else h1;
              GridHash(pieceTable, MovedGrid(g, m), 90) == UpdatePiece(h2, piece, m.to.row, m.to.col)
    {
      var piece := g[m.from.row][m.from.col];
      var captured := g[m.to.row][m.to.col];
      var fromSq, toSq := Flat(m.from.row, m.from.col), Flat(m.to.row, m.to.col);
      var h := GridHash(pieceTable, g, 90);
      MovedGridHash(pieceTable, g, m);
      AddCellSwap(pieceTable, AddCell(pieceTable, h, captured, toSq), piece, toSq, piece, fromSq);
      AddCellSwap(pieceTable, h, captured, toSq, piece, fromSq);
    }
  }

  /** The hash of the first n squares after writing a cell: the old and the new piece's keys swapped once the prefix covers it. */
  predicate SetHashHolds(pieceTable: map<char, seq<bv64>>, g: Grid, row: int, col: int, cell: Cell, n: int)
    requires KeysShaped(pieceTable) && WellFormed(g) && PieceOrEmpty(cell)
    requires IsInBounds(row, col) && 0 <= n <= 90
  {
    SetPreservesWellFormed(g, row, col, cell);
    var k := Flat(row, col);
    GridHash(pieceTable, SetPiece(g, row, col, cell), n)
    == if k < n then AddCell(pieceTable, AddCell(pieceTable, GridHash(pieceTable, g, n), g[row][col], k), cell, k)
       else GridHash(pieceTable, g, n)
  }

  /** Writing a cell changes the hash of a prefix that covers it by the old and the new piece's keys. */
  lemma {:induction false} SetPieceHash(pieceTable: map<char, seq<bv64>>, g: Grid, row: int, col: int, cell: Cell, n: int)
    requires KeysShaped(pieceTable) && WellFormed(g) && PieceOrEmpty(cell)
    requires IsInBounds(row, col) && 0 <= n <= 90
    ensures WellFormed(SetPiece(g, row, col, cell))
    ensures SetHashHolds(pieceTable, g, row, col, cell, n)
  {
    SetPreservesWellFormed(g, row, col, cell);
    if n > 0 {
      SetPieceHash(pieceTable, g, row, col, cell, n - 1);
      SetPieceHashStep(pieceTable, g, row, col, cell, n);
    }
  }

  /** The inductive step of SetPieceHash: from n - 1 squares to n. */
  lemma SetPieceHashStep(pieceTable: map<char, seq<bv64>>, g: Grid, row: int, col: int, cell: Cell, n: int)
    requires KeysShaped(pieceTable) && WellFormed(g) && PieceOrEmpty(cell)
    requires IsInBounds(row, col) && 0 < n <= 90
    requires SetHashHolds(pieceTable, g, row, col, cell, n - 1)
    ensures SetHashHolds(pieceTable, g, row, col, cell, n)
  {
    SetPreservesWellFormed(g, row, col, cell);
    var g' := SetPiece(g, row, col, cell);
    var k := Flat(row, col);
    FlatRoundTrip(row, col);
    var s := SquareOf(n - 1);
    var x := g[s.row][s.col];
    var prev, prev' := GridHash(pieceTable, g, n - 1), GridHash(pieceTable, g', n - 1);
    assert GridHash(pieceTable, g, n) == AddCell(pieceTable, prev, x, n - 1);
    assert GridHash(pieceTable, g', n) == AddCell(pieceTable, prev', g'[s.row][s.col], n - 1);
    if k == n - 1 {
      assert s == Square(row, col);
      AddCellTwice(pieceTable, prev, x, k);
    } else if k < n - 1 {
      assert s != Square(row, col);
      assert g'[s.row][s.col] == x;
      SetStepPast(pieceTable, prev, prev', g[row][col], cell, k, x, n - 1);
    } else {
      assert s != Square(row, col);
      assert g'[s.row][s.col] == x;
    }
  }

  /** The step past the written square: the next square's key commutes with the swapped pair. */
  lemma SetStepPast(pieceTable: map<char, seq<bv64>>, prev: bv64, prev': bv64, was: Cell, now: Cell, k: int, x: Cell, j: int)
    requires KeysShaped(pieceTable) && PieceOrEmpty(was) && PieceOrEmpty(now) && PieceOrEmpty(x)
    requires 0 <= k < 90 && 0 <= j < 90
    requires prev' == AddCell(pieceTable, AddCell(pieceTable, prev, was, k), now, k)
    ensures AddCell(pieceTable, prev', x, j)
         == AddCell(pieceTable, AddCell(pieceTable, AddCell(pieceTable, prev, x, j), was, k), now, k)
  {
    AddCellSwap(pieceTable, AddCell(pieceTable, prev, was, k), now, k, x, j);
    AddCellSwap(pieceTable, prev, was, k, x, j);
  }

  /** The grid hash after a move: the victim's key off the target, the mover's on the target and off the source. */
  lemma MovedGridHash(pieceTable: map<char, seq<bv64>>, g: Grid, m: Move)
    requires KeysShaped(pieceTable) && WellFormed(g)
    requires IsInBounds(m.from.row, m.from.col) && IsInBounds(m.to.row, m.to.col) && m.from != m.to
    ensures WellFormed(MovedGrid(g, m))
    ensures var piece := g[m.from.row][m.from.col];
            var fromSq, toSq := Flat(m.from.row, m.from.col), Flat(m.to.row, m.to.col);
            GridHash(pieceTable, MovedGrid(g, m), 90)
            == AddCell(pieceTable,
                 AddCell(pieceTable, AddCell(pieceTable, GridHash(pieceTable, g, 90), g[m.to.row][m.to.col], toSq), piece, toSq),
                 piece, fromSq)
  {
    var piece := g[m.from.row][m.from.col];
    var mid := SetPiece(g, m.to.row, m.to.col, piece);
    SetPieceHash(pieceTable, g, m.to.row, m.to.col, piece, 90);
    SetPieceHash(pieceTable, mid, m.from.row, m.from.col, None, 90);
    assert SetHashHolds(pieceTable, g, m.to.row, m.to.col, piece, 90);
    assert SetHashHolds(pieceTable, mid, m.from.row, m.from.col, None, 90);
    assert mid[m.from.row][m.from.col] == piece;
  }
}
