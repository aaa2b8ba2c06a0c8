/**
 * The FEN-style text form of a position (core/board.py load_fen and
 * to_fen): ten '/'-separated rows from Black's back rank (row 9) down to
 * Red's (row 0), digits counting empty squares, then a side field, 'w' for
 * Red and anything else for Black.
 */
module Fen {
  import opened Wrappers
  import opened Constants
  import opened Grids
  import opened Text

  datatype Position = Position(grid: Grid, side: int)

  /** The three ways load_fen raises ValueError. */
  datatype FenError = NoFields | WrongRowCount | TooManyPieces(row: int)

  /** What load_fen leaves on the board and whether it raised. */
  datatype Loaded = Loaded(pos: Position, error: Option<FenError>)

  /** The state of the character loop over one FEN row. */
  datatype RowParse = RowParse(cells: Row, col: nat, ok: bool)

  predicate PieceOrEmpty(c: Cell)
  {
    c.None? || c.value in ALL_PIECES
  }

  /**
   * The character loop of load_fen over the rest `s` of one row: a digit
   * skips that many columns, a piece character is placed at the running
   * column (failing once the column reaches 9), anything else is ignored.
   */
  function ParseRowFrom(s: string, col: nat, cells: Row): (r: RowParse)
    ensures r.col >= col
    ensures !r.ok ==> r.col >= 9
    decreases |s|
  {
    if s == [] then RowParse(cells, col, true)
    else if IsDigit(s[0]) then ParseRowFrom(s[1..], col + DigitValue(s[0]), cells)
    else if s[0] in ALL_PIECES then
      if col >= 9 then RowParse(cells, col, false)
      else ParseRowFrom(s[1..], col + 1, cells[col := Some(s[0])])
    else ParseRowFrom(s[1..], col, cells)
  }

  /**
   * The row loop of load_fen from FEN row i on: FEN row i fills board row
   * 9 - i. Returns the grid and, if a row overflowed, that row's index.
   */
  function FillRows(rows: seq<string>, i: nat, g: Grid): (r: (Grid, Option<int>))
    requires |rows| == 10 && i <= 10
    ensures r.1.Some? ==> 0 <= r.1.value <= 9 - i
    decreases 10 - i
  {
    if i == 10 then (g, None)
    else
      var p := ParseRowFrom(rows[i], 0, g[9 - i]);
      var g' := g[9 - i := p.cells];
      if !p.ok then (g', Some(9 - i)) else FillRows(rows, i + 1, g')
  }

  /** The side field: 'w' is Red, any other word Black, no field Red. */
  function SideOf(parts: seq<string>): int
  {
    if |parts| > 1 then (if parts[1] == "w" then RED else BLACK) else RED
  }

  /**
   * load_fen on a board holding `pos`. The first two errors leave the board
   * untouched; a row overflow leaves the board cleared and filled up to the
   * failing piece, with the side unchanged.
   */
  function Load(fen: string, pos: Position): Loaded
  {
    LoadFields(SplitWs(fen), pos)
  }

  function LoadFields(parts: seq<string>, pos: Position): Loaded
  {
    if |parts| < 1 then Loaded(pos, Some(NoFields))
    else LoadRows(SplitOn(parts[0], '/'), SideOf(parts), pos)
  }

  function LoadRows(rows: seq<string>, side: int, pos: Position): Loaded
  {
    if |rows| != 10 then Loaded(pos, Some(WrongRowCount))
    else
      var filled := FillRows(rows, 0, EMPTY_GRID);
      if filled.1.Some? then Loaded(Position(filled.0, pos.side), Some(TooManyPieces(filled.1.value)))
      else Loaded(Position(filled.0, side), None)
  }

  /** The character loop only ever writes piece characters into the row. */
  lemma {:induction false} ParseRowKeepsPieces(s: string, col: nat, cells: Row)
    requires forall j :: 0 <= j < 9 ==> PieceOrEmpty(cells[j])
    ensures forall j :: 0 <= j < 9 ==> PieceOrEmpty(ParseRowFrom(s, col, cells).cells[j])
    decreases |s|
  {
    if s != [] {
      if IsDigit(s[0]) {
        ParseRowKeepsPieces(s[1..], col + DigitValue(s[0]), cells);
      } else if s[0] in ALL_PIECES {
        if col < 9 {
          ParseRowKeepsPieces(s[1..], col + 1, cells[col := Some(s[0])]);
        }
      } else {
        ParseRowKeepsPieces(s[1..], col, cells);
      }
    }
  }

  /** The row loop keeps a grid of empty squares and piece characters so. */
  lemma {:induction false} FillRowsWellFormed(rows: seq<string>, i: nat, g: Grid)
    requires |rows| == 10 && i <= 10 && WellFormed(g)
    ensures WellFormed(FillRows(rows, i, g).0)
    decreases 10 - i
  {
    if i < 10 {
      var p := ParseRowFrom(rows[i], 0, g[9 - i]);
      ParseRowKeepsPieces(rows[i], 0, g[9 - i]);
      var g' := g[9 - i := p.cells];
      assert WellFormed(g');
      if p.ok {
        FillRowsWellFormed(rows, i + 1, g');
      }
    }
  }

  /** A completed load_fen leaves only empty squares and piece characters, and a side of RED or BLACK. */
  lemma LoadWellFormed(fen: string, pos: Position)
    requires WellFormed(pos.grid)
    ensures WellFormed(Load(fen, pos).pos.grid)
    ensures Load(fen, pos).error.None? ==> Load(fen, pos).pos.side in {RED, BLACK}
  {
    assert WellFormed(EMPTY_GRID);
    var parts := SplitWs(fen);
    if |parts| >= 1 {
      var rows := SplitOn(parts[0], '/');
      if |rows| == 10 {
        FillRowsWellFormed(rows, 0, EMPTY_GRID);
      }
    }
  }

  // ----- Serialiser -----

  /** `str(empty_count)` when the count is positive. */
  function Flush(n: nat): string
  {
    if n > 0 then NatToString(n) else ""
  }

  /** to_fen's column loop over the rest of a row, with `empty` squares pending. */
  function EncodeFrom(cells: seq<Cell>, empty: nat): string
  {
    if cells == [] then Flush(empty)
    else if cells[0].None? then EncodeFrom(cells[1..], empty + 1)
    else Flush(empty) + [cells[0].value] + EncodeFrom(cells[1..], 0)
  }

  function EncodeRow(row: Row): string
  {
    EncodeFrom(row, 0)
  }

  /** The board field: rows 9 down to 0. */
  function RowStrings(g: Grid): seq<string>
  {
    seq(10, i requires 0 <= i < 10 => EncodeRow(g[9 - i]))
  }

  /** to_fen. */
  function ToFen(pos: Position): string
  {
    Join(RowStrings(pos.grid), '/') + " " + [if pos.side == RED then 'w' else 'b']
  }

  // ----- Round trip -----

  predicate FenChar(ch: char)
  {
    IsDigit(ch) || ch in ALL_PIECES
  }

  lemma {:induction false} EncodeFromChars(cells: seq<Cell>, empty: nat)
    requires forall j :: 0 <= j < |cells| ==> PieceOrEmpty(cells[j])
    ensures forall i :: 0 <= i < |EncodeFrom(cells, empty)| ==> FenChar(EncodeFrom(cells, empty)[i])
  {
    if cells != [] {
      if cells[0].None? {
        EncodeFromChars(cells[1..], empty + 1);
      } else {
        EncodeFromChars(cells[1..], 0);
      }
    }
  }

  /** A run count of at most nine squares is one digit, which moves the parser's column on by that much. */
  lemma ParseFlush(e: nat, t: string, col: nat, cells: Row)
    requires e <= 9
    ensures ParseRowFrom(Flush(e) + t, col, cells) == ParseRowFrom(t, col + e, cells)
  {
    if e > 0 {
      var s := Flush(e) + t;
      assert s[0] == DigitChar(e) && s[1..] == t;
    } else {
      assert Flush(e) + t == t;
    }
  }

  /** A piece character is placed at the parser's column, which moves on by one. */
  lemma ParsePiece(p: char, rest: string, col: nat, cells: Row)
    requires p in ALL_PIECES && col < 9
    ensures ParseRowFrom([p] + rest, col, cells) == ParseRowFrom(rest, col + 1, cells[col := Some(p)])
  {
    var t := [p] + rest;
    assert t[0] == p && t[1..] == rest;
    assert !IsDigit(p);
  }

  /** The parser's row holds the first n cells of `row` and nothing after them. */
  predicate FilledUpTo(row: Row, cells: Row, n: int)
  {
    forall j :: 0 <= j < 9 ==> cells[j] == (if j < n then row[j] else None)
  }

  /** The end of the row: the pending run count fills the last columns, which are empty in `row`. */
  lemma RowRoundTripEnd(row: Row, e: nat, cells: Row)
    requires e <= 9 && FilledUpTo(row, cells, 9 - e)
    requires forall j :: 9 - e <= j < 9 ==> row[j].None?
    ensures ParseRowFrom(EncodeFrom(row[9..], e), 9 - e, cells) == RowParse(row, 9, true)
  {
    assert row[9..] == [];
    assert cells == row;
    ParseFlush(e, [], 9 - e, cells);
    assert Flush(e) + [] == Flush(e);
  }

  /** A piece at column k: the pending run count, then its letter, then the rest of the row. */
  lemma RowRoundTripPiece(row: Row, k: nat, e: nat, cells: Row)
    requires k < 9 && e <= k && row[k].Some? && row[k].value in ALL_PIECES
    requires ParseRowFrom(EncodeFrom(row[k + 1..], 0), k + 1, cells[k := row[k]]) == RowParse(row, 9, true)
    ensures ParseRowFrom(EncodeFrom(row[k..], e), k - e, cells) == RowParse(row, 9, true)
  {
    var p := row[k].value;
    var rest := EncodeFrom(row[k + 1..], 0);
    assert row[k..][0] == row[k] && row[k..][1..] == row[k + 1..];
    assert EncodeFrom(row[k..], e) == Flush(e) + ([p] + rest);
    ParseFlush(e, [p] + rest, k - e, cells);
    ParsePiece(p, rest, k, cells);
  }

  /** An empty square at column k only adds to the pending run count. */
  lemma RowRoundTripEmpty(row: Row, k: nat, e: nat, cells: Row)
    requires k < 9 && e <= k && row[k].None?
    requires ParseRowFrom(EncodeFrom(row[k + 1..], e + 1), k - e, cells) == RowParse(row, 9, true)
    ensures ParseRowFrom(EncodeFrom(row[k..], e), k - e, cells) == RowParse(row, 9, true)
  {
    assert row[k..][0] == row[k] && row[k..][1..] == row[k + 1..];
  }

  /** Placing the piece of column k, after a run of empty columns, extends the filled prefix to column k. */
  lemma FilledStep(row: Row, cells: Row, k: nat, e: nat)
    requires k < 9 && e <= k && FilledUpTo(row, cells, k - e)
    requires forall j :: k - e <= j < k ==> row[j].None?
    ensures FilledUpTo(row, cells[k := row[k]], k + 1)
  {
  }

  /**
   * Parsing what to_fen wrote for row[k..], with `e` empty squares pending
   * and the first k - e columns already filled, completes the row.
   */
  lemma {:induction false} RowRoundTrip(row: Row, k: nat, e: nat, cells: Row)
    requires k <= 9 && e <= k
    requires forall j :: 0 <= j < 9 ==> PieceOrEmpty(row[j])
    requires forall j :: k - e <= j < k ==> row[j].None?
    requires FilledUpTo(row, cells, k - e)
    ensures ParseRowFrom(EncodeFrom(row[k..], e), k - e, cells) == RowParse(row, 9, true)
    decreases 9 - k
  {
    if k == 9 {
      RowRoundTripEnd(row, e, cells);
    } else if row[k].None? {
      RowRoundTrip(row, k + 1, e + 1, cells);
      RowRoundTripEmpty(row, k, e, cells);
    } else {
      assert PieceOrEmpty(row[k]);
      FilledStep(row, cells, k, e);
      RowRoundTrip(row, k + 1, 0, cells[k := row[k]]);
      RowRoundTripPiece(row, k, e, cells);
    }
  }

  /** One turn of load_fen's row loop that parses its row cleanly goes on to the next row. */
  lemma FillRowsStep(rows: seq<string>, i: nat, g: Grid, row: Row)
    requires |rows| == 10 && i < 10
    requires ParseRowFrom(rows[i], 0, g[9 - i]) == RowParse(row, 9, true)
    ensures FillRows(rows, i, g) == FillRows(rows, i + 1, g[9 - i := row])
  {
  }

  lemma {:induction false} FillRowsRoundTrip(full: Grid, rows: seq<string>, i: nat, g: Grid)
    requires WellFormed(full) && |rows| == 10 && i <= 10
    requires forall j :: 0 <= j < 10 ==> rows[j] == EncodeRow(full[9 - j])
    requires forall r :: 0 <= r < 10 ==> g[r] == if r >= 10 - i then full[r] else EMPTY_ROW
    ensures FillRows(rows, i, g) == (full, None)
    decreases 10 - i
  {
    if i == 10 {
      assert g == full;
    } else {
      var row := full[9 - i];
      assert row[0..] == row;
      assert rows[i] == EncodeFrom(row[0..], 0);
      RowRoundTrip(row, 0, 0, EMPTY_ROW);
      FillRowsStep(rows, i, g, row);
      FillRowsRoundTrip(full, rows, i + 1, g[9 - i := row]);
    }
  }

  /** The text to_fen writes splits on whitespace into the board field and the side field. */
  lemma FenWords(pos: Position)
    requires WellFormed(pos.grid)
    ensures SplitWs(ToFen(pos)) == [Join(RowStrings(pos.grid), '/'), [if pos.side == RED then 'w' else 'b']]
  {
    var field := Join(RowStrings(pos.grid), '/');
    var side := [if pos.side == RED then 'w' else 'b'];
    BoardFieldSplits(pos.grid);
    SplitTwoWords(field, side);
  }

  /**
   * load_fen(to_fen()) reproduces the grid and the side to move of any board
   * whose cells are empty or pieces and whose side is RED or BLACK, whatever
   * the board held before.
   */
  lemma FenRoundTrip(pos: Position, before: Position)
    requires WellFormed(pos.grid) && pos.side in {RED, BLACK}
    ensures Load(ToFen(pos), before) == Loaded(pos, None)
  {
    var rows := RowStrings(pos.grid);
    var parts := [Join(rows, '/'), [if pos.side == RED then 'w' else 'b']];
    FenWords(pos);
    BoardFieldSplits(pos.grid);
    assert SideOf(parts) == pos.side;
    LoadFieldsRoundTrip(parts, pos.grid, pos.side, before);
  }

  /** The two fields to_fen writes load back into the grid and the side they came from. */
  lemma LoadFieldsRoundTrip(parts: seq<string>, full: Grid, side: int, before: Position)
    requires |parts| == 2 && WellFormed(full)
    requires SplitOn(parts[0], '/') == RowStrings(full) && SideOf(parts) == side
    ensures LoadFields(parts, before) == Loaded(Position(full, side), None)
  {
    LoadRowsRoundTrip(full, RowStrings(full), side, before);
  }

  /** The row loop of load_fen, given the rows to_fen wrote, rebuilds the grid and takes the side. */
  lemma LoadRowsRoundTrip(full: Grid, rows: seq<string>, side: int, before: Position)
    requires WellFormed(full) && |rows| == 10
    requires forall j :: 0 <= j < 10 ==> rows[j] == EncodeRow(full[9 - j])
    ensures LoadRows(rows, side, before) == Loaded(Position(full, side), None)
  {
    FillRowsRoundTrip(full, rows, 0, EMPTY_GRID);
  }

  /** The board field is one whitespace-free word that splits back into its ten rows. */
  lemma BoardFieldSplits(g: Grid)
    requires WellFormed(g)
    ensures |Join(RowStrings(g), '/')| >= 1 && NoSpace(Join(RowStrings(g), '/'))
    ensures SplitOn(Join(RowStrings(g), '/'), '/') == RowStrings(g)
  {
    var rows := RowStrings(g);
    forall j | 0 <= j < 10
      ensures NoSpace(rows[j]) && Excludes(rows[j], '/')
    {
      EncodeFromChars(g[9 - j], 0);
    }
    JoinNoSpace(rows, '/');
    JoinNonEmpty(rows, '/');
    SplitJoin(rows, '/');
  }
}
