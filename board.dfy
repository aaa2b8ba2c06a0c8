/**
 * The mutable board of core/board.py: a 10x9 grid, the side to move, and two
 * history stacks (FEN strings and moves) used to take moves back.
 */
module Boards {
  import opened Wrappers
  import opened Constants
  import opened Grids
  import opened Text
  import opened Fen

  /** A FEN string that load_fen accepts without raising. */
  predicate LoadsCleanly(fen: string)
  {
    Load(fen, Position(EMPTY_GRID, RED)).error.None?
  }

  /** A FEN that to_fen wrote for a well-formed position loads cleanly. */
  lemma ToFenLoadsCleanly(pos: Position)
    requires WellFormed(pos.grid) && pos.side in {RED, BLACK}
    ensures LoadsCleanly(ToFen(pos))
  {
    FenRoundTrip(pos, Position(EMPTY_GRID, RED));
  }

  /** Appending a clean FEN to a history of clean FENs keeps it clean. */
  lemma CleanHistoryAppend(history: seq<string>, fen: string)
    requires forall i :: 0 <= i < |history| ==> LoadsCleanly(history[i])
    requires LoadsCleanly(fen)
    ensures forall i :: 0 <= i < |history + [fen]| ==> LoadsCleanly((history + [fen])[i])
  {
  }

  /** Whether load_fen raises does not depend on the board it loads into, nor does a clean result. */
  lemma LoadIgnoresBoard(fen: string, p: Position, q: Position)
    ensures Load(fen, p).error == Load(fen, q).error
    ensures Load(fen, p).error.None? ==> Load(fen, p) == Load(fen, q)
  {
  }

  /** One column of to_fen's row loop: an empty square adds to the pending count, a piece flushes it. */
  lemma EncodeStep(cells: Row, k: nat, e: nat)
    requires k < 9
    ensures cells[k].None? ==> EncodeFrom(cells[k..], e) == EncodeFrom(cells[k + 1..], e + 1)
    ensures cells[k].Some? ==> EncodeFrom(cells[k..], e) == Flush(e) + [cells[k].value] + EncodeFrom(cells[k + 1..], 0)
  {
    assert cells[k..][0] == cells[k] && cells[k..][1..] == cells[k + 1..];
  }

  /** The text written and the empty squares pending after to_fen's column loop has seen n squares. */
  function RowState(cells: Row, n: nat): (string, nat)
    requires n <= 9
  {
    if n == 0 then ("", 0)
    else
      var prev := RowState(cells, n - 1);
      if cells[n - 1].None? then (prev.0, prev.1 + 1)
      else (prev.0 + Flush(prev.1) + [cells[n - 1].value], 0)
  }

  /** What the loop has written, followed by the encoding of the rest, is the whole row's encoding. */
  lemma {:induction false} RowStateEncodes(cells: Row, n: nat)
    requires n <= 9
    ensures RowState(cells, n).0 + EncodeFrom(cells[n..], RowState(cells, n).1) == EncodeRow(cells)
  {
    if n == 0 {
      assert cells[0..] == cells;
    } else {
      RowStateEncodes(cells, n - 1);
      var prev := RowState(cells, n - 1);
      EncodeStep(cells, n - 1, prev.1);
      if cells[n - 1].Some? {
        var v := cells[n - 1].value;
        var rest := EncodeFrom(cells[n..], 0);
        assert prev.0 + (Flush(prev.1) + [v] + rest) == (prev.0 + Flush(prev.1) + [v]) + rest;
      }
    }
  }

  class Board {
    var grid: Grid
    var currentPlayer: int
    /** FEN of the position before each move, oldest first. */
    var history: seq<string>
    var moveHistory: seq<Move>

    /**
     * Cells are empty or pieces, the side is RED or BLACK, the two stacks
     * have equal height, and every saved FEN loads cleanly.
     */
    ghost predicate Valid()
      reads this
    {
      WellFormed(grid) && currentPlayer in {RED, BLACK} && |history| == |moveHistory|
      && forall i :: 0 <= i < |history| ==> LoadsCleanly(history[i])
    }

    /** The state __init__ sets up before it loads its FEN argument. */
    constructor ()
      ensures Valid()
      ensures grid == EMPTY_GRID && currentPlayer == RED && history == [] && moveHistory == []
    {
      grid := EMPTY_GRID;
      currentPlayer := RED;
      history := [];
      moveHistory := [];
    }

    /** `Board(fen)`: the new board, or the error load_fen raises. */
    static method Create(fen: string) returns (r: Result<Board, FenError>)
      ensures r.Ok? ==> fresh(r.value) && r.value.Valid()
      ensures r.Ok? ==> Load(fen, Position(EMPTY_GRID, RED)) == Loaded(Position(r.value.grid, r.value.currentPlayer), None)
      ensures r.Ok? ==> r.value.history == [] && r.value.moveHistory == []
      ensures r.Err? <==> !LoadsCleanly(fen)
      ensures r.Err? ==> Load(fen, Position(EMPTY_GRID, RED)).error == Some(r.error)
    {
      var b := new Board();
      var err := b.LoadFen(fen);
      if err.Some? {
        return Err(err.value);
      }
      return Ok(b);
    }

    /**
     * load_fen: the new grid, side and raised error are those of Fen.Load;
     * the history stacks are not touched.
     */
    method LoadFen(fen: string) returns (err: Option<FenError>)
      requires WellFormed(grid)
      modifies this
      ensures Loaded(Position(grid, currentPlayer), err) == Load(fen, Position(old(grid), old(currentPlayer)))
      ensures WellFormed(grid)
      ensures err.None? ==> currentPlayer in {RED, BLACK}
      ensures history == old(history) && moveHistory == old(moveHistory)
    {
      LoadWellFormed(fen, Position(grid, currentPlayer));
      var parts := SplitWs(fen);
      if |parts| < 1 {
        return Some(NoFields);
      }
      var rows := SplitOn(parts[0], '/');
      if |rows| != BOARD_ROWS {
        return Some(WrongRowCount);
      }
      var failed := FillAllRows(rows);
      if failed.Some? {
        return Some(TooManyPieces(failed.value));
      }
      if |parts| > 1 {
        currentPlayer := if parts[1] == "w" then RED else BLACK;
      } else {
        currentPlayer := RED;
      }
      return None;
    }

    /** load_fen's row loop: clear the board, then fill board row 9 - i from FEN row i, stopping at the first overflow. */
    method FillAllRows(rows: seq<string>) returns (failed: Option<int>)
      requires |rows| == 10
      modifies this
      ensures (grid, failed) == FillRows(rows, 0, EMPTY_GRID)
      ensures currentPlayer == old(currentPlayer)
      ensures history == old(history) && moveHistory == old(moveHistory)
    {
      grid := EMPTY_GRID;
      var i := 0;
      while i < BOARD_ROWS
        invariant 0 <= i <= 10
        invariant FillRows(rows, i, grid) == FillRows(rows, 0, EMPTY_GRID)
        invariant currentPlayer == old(currentPlayer)
        invariant history == old(history) && moveHistory == old(moveHistory)
      {
        var rowIdx := BOARD_ROWS - 1 - i;
        ghost var start := grid;
        var ok := FillRow(rowIdx, rows[i]);
        if !ok {
          return Some(rowIdx);
        }
        assert FillRows(rows, i, start) == FillRows(rows, i + 1, grid);
        i := i + 1;
      }
      return None;
    }

    /** The character loop of load_fen for one FEN row, writing into board row `rowIdx`. */
    method FillRow(rowIdx: int, rowStr: string) returns (ok: bool)
      requires 0 <= rowIdx < 10
      modifies this
      ensures var p := ParseRowFrom(rowStr, 0, old(grid[rowIdx]));
        grid == old(grid)[rowIdx := p.cells] && ok == p.ok
      ensures currentPlayer == old(currentPlayer)
      ensures history == old(history) && moveHistory == old(moveHistory)
    {
      var col: nat := 0;
      var j := 0;
      while j < |rowStr|
        invariant 0 <= j <= |rowStr|
        invariant grid == old(grid)[rowIdx := grid[rowIdx]]
        invariant ParseRowFrom(rowStr[j..], col, grid[rowIdx]) == ParseRowFrom(rowStr, 0, old(grid[rowIdx]))
        invariant currentPlayer == old(currentPlayer)
        invariant history == old(history) && moveHistory == old(moveHistory)
      {
        var ch := rowStr[j];
        assert rowStr[j..][0] == ch && rowStr[j..][1..] == rowStr[j + 1..];
        if IsDigit(ch) {
          col := col + DigitValue(ch);
        } else if ch in ALL_PIECES {
          if col >= BOARD_COLS {
            return false;
          }
          grid := grid[rowIdx := grid[rowIdx][col := Some(ch)]];
          col := col + 1;
        }
        j := j + 1;
      }
      assert rowStr[j..] == [];
      return true;
    }

    /** to_fen: the text Fen.ToFen gives for the current grid and side. */
    method ToFen() returns (s: string)
      ensures s == Fen.ToFen(Position(grid, currentPlayer))
    {
      var rows: seq<string> := [];
      var rowIdx := BOARD_ROWS - 1;
      while rowIdx >= 0
        invariant -1 <= rowIdx <= 9
        invariant rows == RowStrings(grid)[..9 - rowIdx]
      {
        var rowStr := EncodeGridRow(rowIdx);
        rows := rows + [rowStr];
        rowIdx := rowIdx - 1;
      }
      assert rows == RowStrings(grid);
      var playerStr := if currentPlayer == RED then "w" else "b";
      return Join(rows, '/') + " " + playerStr;
    }

    /** to_fen's column loop over board row `rowIdx`: run-length counts of empty squares, piece letters as they are. */
    method EncodeGridRow(rowIdx: int) returns (rowStr: string)
      requires 0 <= rowIdx < 10
      ensures rowStr == EncodeRow(grid[rowIdx])
    {
      var cells := grid[rowIdx];
      rowStr := "";
      var emptyCount: nat := 0;
      var colIdx := 0;
      while colIdx < BOARD_COLS
        invariant 0 <= colIdx <= 9
        invariant (rowStr, emptyCount) == RowState(cells, colIdx)
      {
        var piece := cells[colIdx];
        if piece.None? {
          emptyCount := emptyCount + 1;
        } else {
          var flushed := rowStr;
          if emptyCount > 0 {
            flushed := rowStr + NatToString(emptyCount);
          } else {
            assert flushed == rowStr + "";
          }
          rowStr := flushed + [piece.value];
          emptyCount := 0;
        }
        colIdx := colIdx + 1;
      }
      RowStateEncodes(cells, 9);
      assert cells[9..] == [];
      if emptyCount > 0 {
        rowStr := rowStr + NatToString(emptyCount);
      } else {
        assert rowStr == rowStr + "";
      }
    }

    /** get_piece: None off the board. */
    function GetPiece(row: int, col: int): Cell
      reads this
    {
      Grids.GetPiece(grid, row, col)
    }

    /** set_piece: writes an in-bounds square, ignores any other. */
    method SetPiece(row: int, col: int, piece: Cell)
      modifies this
      ensures grid == Grids.SetPiece(old(grid), row, col, piece)
      ensures currentPlayer == old(currentPlayer)
      ensures history == old(history) && moveHistory == old(moveHistory)
      ensures old(Valid()) && PieceOrEmpty(piece) ==> Valid()
    {
      ghost var wasValid := Valid();
      if IsInBounds(row, col) {
        grid := grid[row := grid[row][col := piece]];
      }
      if wasValid && PieceOrEmpty(piece) {
        SetPreservesWellFormed(old(grid), row, col, piece);
      }
    }

    /**
     * move_piece: saves the current FEN and the move, moves the source
     * piece onto the target, empties the source, passes the turn, and
     * returns what stood on the target.
     */
    method MovePiece(m: Move) returns (captured: Cell)
      requires Valid()
      modifies this
      ensures Valid()
      ensures captured == Grids.GetPiece(old(grid), m.to.row, m.to.col)
      ensures grid == MovedGrid(old(grid), m)
      ensures currentPlayer == -old(currentPlayer)
      ensures history == old(history) + [Fen.ToFen(Position(old(grid), old(currentPlayer)))]
      ensures moveHistory == old(moveHistory) + [m]
    {
      var piece := GetPiece(m.from.row, m.from.col);
      captured := GetPiece(m.to.row, m.to.col);
      var fen := ToFen();
      ToFenLoadsCleanly(Position(grid, currentPlayer));
      CleanHistoryAppend(history, fen);
      history := history + [fen];
      moveHistory := moveHistory + [m];
      SetPiece(m.to.row, m.to.col, piece);
      SetPiece(m.from.row, m.from.col, None);
      currentPlayer := -currentPlayer;
    }

    /**
     * undo_move: False and no change on an empty history; otherwise pops
     * both stacks and reloads the popped FEN.
     */
    method UndoMove() returns (ok: bool)
      requires Valid()
      modifies this
      ensures Valid()
      ensures ok <==> old(history) != []
      ensures !ok ==> grid == old(grid) && currentPlayer == old(currentPlayer)
                      && history == old(history) && moveHistory == old(moveHistory)
      ensures ok ==> history == old(history[..|history| - 1]) && moveHistory == old(moveHistory[..|moveHistory| - 1])
      ensures ok ==> Load(old(history[|history| - 1]), Position(old(grid), old(currentPlayer)))
                     == Loaded(Position(grid, currentPlayer), None)
    {
      if history == [] {
        return false;
      }
      var lastFen := history[|history| - 1];
      history := history[..|history| - 1];
      moveHistory := moveHistory[..|moveHistory| - 1];
      LoadIgnoresBoard(lastFen, Position(grid, currentPlayer), Position(EMPTY_GRID, RED));
      var err := LoadFen(lastFen);
      return true;
    }

    /** move_piece followed by undo_move puts back the grid, the side to move and both stacks. */
    method MoveThenUndo(m: Move) returns (captured: Cell, undone: bool)
      requires Valid()
      modifies this
      ensures Valid() && undone
      ensures grid == old(grid) && currentPlayer == old(currentPlayer)
      ensures history == old(history) && moveHistory == old(moveHistory)
    {
      ghost var before := Position(grid, currentPlayer);
      captured := MovePiece(m);
      FenRoundTrip(before, Position(grid, currentPlayer));
      undone := UndoMove();
    }

    /** copy: a fresh board with the same grid, side and stacks. */
    method Copy() returns (b: Board)
      requires Valid()
      ensures fresh(b) && b.Valid()
      ensures b.grid == grid && b.currentPlayer == currentPlayer
      ensures b.history == history && b.moveHistory == moveHistory
    {
      b := new Board();
      var fen := ToFen();
      FenRoundTrip(Position(grid, currentPlayer), Position(b.grid, b.currentPlayer));
      var err := b.LoadFen(fen);
      b.history := history;
      b.moveHistory := moveHistory;
    }

    /** find_king: the first square of the colour's king in row-major order. */
    method FindKing(color: int) returns (r: Option<Square>)
      ensures r == Grids.FindKing(grid, color)
    {
      var king := if color == RED then 'K' else 'k';
      var row := 0;
      while row < BOARD_ROWS
        invariant 0 <= row <= 10
        invariant Grids.FindKing(grid, color) == FindFrom(grid, king, row * 9)
      {
        r := FindKingInRow(king, row);
        if r.Some? {
          return;
        }
        row := row + 1;
      }
      return None;
    }

    /** find_king's column loop over one row: the first king there, else None with the search moved on past the row. */
    method FindKingInRow(king: char, row: int) returns (r: Option<Square>)
      requires 0 <= row < 10
      ensures r.Some? ==> r == FindFrom(grid, king, row * 9)
      ensures r.None? ==> FindFrom(grid, king, row * 9) == FindFrom(grid, king, row * 9 + 9)
    {
      var col := 0;
      while col < BOARD_COLS
        invariant 0 <= col <= 9
        invariant FindFrom(grid, king, row * 9) == FindFrom(grid, king, row * 9 + col)
      {
        FlatRoundTrip(row, col);
        if grid[row][col] == Some(king) {
          return Some(Square(row, col));
        }
        col := col + 1;
      }
      return None;
    }

    /** get_all_pieces: the colour's pieces in row-major order. */
    method GetAllPieces(color: int) returns (pieces: seq<Placed>)
      ensures pieces == AllPieces(grid, color)
    {
      pieces := [];
      var targetSet := if color == RED then RED_PIECES else BLACK_PIECES;
      var row := 0;
      while row < BOARD_ROWS
        invariant 0 <= row <= 10
        invariant pieces == PiecesUpTo(grid, targetSet, row * 9)
      {
        pieces := CollectRow(targetSet, row, pieces);
        row := row + 1;
      }
    }

    /** get_all_pieces' column loop over one row, appending the row's pieces of `targetSet`. */
    method CollectRow(targetSet: set<char>, row: int, pieces0: seq<Placed>) returns (pieces: seq<Placed>)
      requires 0 <= row < 10 && pieces0 == PiecesUpTo(grid, targetSet, row * 9)
      ensures pieces == PiecesUpTo(grid, targetSet, row * 9 + 9)
    {
      pieces := pieces0;
      var col := 0;
      while col < BOARD_COLS
        invariant 0 <= col <= 9
        invariant pieces == PiecesUpTo(grid, targetSet, row * 9 + col)
      {
        FlatRoundTrip(row, col);
        var piece := grid[row][col];
        if piece.Some? && piece.value in targetSet {
          pieces := pieces + [Placed(row, col, piece.value)];
        }
        col := col + 1;
      }
    }
  }
}
