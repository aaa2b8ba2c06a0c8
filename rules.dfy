/**
 * The RuleEngine class of core/rules.py: move generators that append to a
 * list in loops, the legality filter that tries each move on a copy of the
 * board, check and flying-general detection, and the game-end queries.
 * Each method is proved equal to its specification in MoveGen or Legality.
 */
module Rules {
  import opened Wrappers
  import opened Constants
  import opened Grids
  import opened Boards
  import opened MoveGen
  import opened Legality

  class RuleEngine {
    const board: Board

    constructor (board: Board)
      ensures this.board == board
    {
      this.board := board;
    }

    /** get_legal_moves. */
    method GetLegalMoves(row: int, col: int) returns (legalMoves: seq<Square>)
      requires board.Valid()
      ensures legalMoves == LegalMovesFrom(board.grid, row, col)
    {
      var piece := board.GetPiece(row, col);
      if piece.None? {
        return [];
      }
      var moves := PseudoLegalMoves(row, col, piece.value);
      legalMoves := [];
      for i := 0 to |moves|
        invariant legalMoves == KeepLegal(board.grid, Square(row, col), moves, i)
      {
        legalMoves := KeepIfLegal(Square(row, col), moves, i, legalMoves);
      }
    }

    /** One turn of get_legal_moves' filter loop: append the i-th target when _is_legal_move accepts it. */
    method KeepIfLegal(from: Square, moves: seq<Square>, i: int, kept: seq<Square>) returns (kept': seq<Square>)
      requires board.Valid() && 0 <= i < |moves|
      requires kept == KeepLegal(board.grid, from, moves, i)
      ensures kept' == KeepLegal(board.grid, from, moves, i + 1)
    {
      var ok := IsLegalMove(from, moves[i]);
      kept' := kept;
      if ok {
        kept' := kept + [moves[i]];
      }
    }

    /** _get_pseudo_legal_moves. */
    method PseudoLegalMoves(row: int, col: int, piece: char) returns (moves: seq<Square>)
      ensures moves == PseudoMoves(board.grid, row, col, piece)
    {
      var pieceType := Upper(piece);
      var color := GetPieceColor(piece);
      if pieceType == 'R' {
        moves := RookMoves(row, col, color);
      } else if pieceType == 'N' {
        moves := KnightMoves(row, col, color);
      } else if pieceType == 'B' {
        moves := BishopMoves(row, col, color);
      } else if pieceType == 'A' {
        moves := AdvisorMoves(row, col, color);
      } else if pieceType == 'K' {
        moves := KingMoves(row, col, color);
      } else if pieceType == 'C' {
        moves := CannonMoves(row, col, color);
      } else if pieceType == 'P' {
        moves := PawnMoves(row, col, color);
      } else {
        moves := [];
      }
    }

    /** _get_rook_moves. */
    method RookMoves(row: int, col: int, color: int) returns (moves: seq<Square>)
      ensures moves == MoveGen.RookMoves(board.grid, row, col, color)
    {
      moves := [];
      for d := 0 to 4
        invariant moves == RookMovesUpTo(board.grid, row, col, color, d)
      {
        var dr, dc := ORTHOGONAL[d].0, ORTHOGONAL[d].1;
        var ray := RookRayScan(row + dr, col + dc, dr, dc, color);
        moves := moves + ray;
      }
    }

    /** The inner while loop of _get_rook_moves: slide over empty squares, stop at the first piece, keep it when an enemy. */
    method RookRayScan(r0: int, c0: int, dr: int, dc: int, color: int) returns (ray: seq<Square>)
      requires IsDirection(dr, dc)
      ensures ray == RookRay(board.grid, r0, c0, dr, dc, color)
    {
      ray := [];
      var r, c := r0, c0;
      while IsInBounds(r, c)
        invariant ray + RookRay(board.grid, r, c, dr, dc, color) == RookRay(board.grid, r0, c0, dr, dc, color)
        decreases StepsLeft(r, c, dr, dc)
      {
        var targetPiece := board.GetPiece(r, c);
        if targetPiece.None? {
          assert ray + RookRay(board.grid, r, c, dr, dc, color)
              == (ray + [Square(r, c)]) + RookRay(board.grid, r + dr, c + dc, dr, dc, color);
          ray := ray + [Square(r, c)];
        } else if GetPieceColor(targetPiece.value) != color {
          ray := ray + [Square(r, c)];
          return;
        } else {
          assert ray + [] == ray;
          return;
        }
        r := r + dr;
        c := c + dc;
      }
      assert ray + [] == ray;
    }

    /** _get_knight_moves. */
    method KnightMoves(row: int, col: int, color: int) returns (moves: seq<Square>)
      ensures moves == LeapMoves(Knight, board.grid, row, col, color)
    {
      moves := [];
      for i := 0 to |KNIGHT_LEAPS|
        invariant moves == LeapMovesUpTo(Knight, board.grid, row, col, color, i)
      {
        var target := KnightTry(row, col, color, KNIGHT_LEAPS[i]);
        moves := moves + target;
      }
    }

    /** One offset of _get_knight_moves: on the board, the leg square empty, and not landing on an own piece. */
    method KnightTry(row: int, col: int, color: int, leap: Leap) returns (target: seq<Square>)
      ensures target == if Keeps(Knight, board.grid, row, col, color, leap) then [LeapTarget(row, col, leap)] else []
    {
      var r2, c2 := row + leap.dr, col + leap.dc;
      var blockR, blockC := row + leap.br, col + leap.bc;
      if !IsInBounds(r2, c2) {
        return [];
      }
      if board.GetPiece(blockR, blockC).Some? {
        return [];
      }
      var targetPiece := board.GetPiece(r2, c2);
      if targetPiece.None? || GetPieceColor(targetPiece.value) != color {
        return [Square(r2, c2)];
      }
      return [];
    }

    /** _get_bishop_moves (the elephant). */
    method BishopMoves(row: int, col: int, color: int) returns (moves: seq<Square>)
      ensures moves == LeapMoves(Elephant, board.grid, row, col, color)
    {
      moves := [];
      for i := 0 to |ELEPHANT_LEAPS|
        invariant moves == LeapMovesUpTo(Elephant, board.grid, row, col, color, i)
      {
        var target := BishopTry(row, col, color, ELEPHANT_LEAPS[i]);
        moves := moves + target;
      }
    }

    /** One offset of _get_bishop_moves: on the board, not across the river, the eye empty, not landing on an own piece. */
    method BishopTry(row: int, col: int, color: int, leap: Leap) returns (target: seq<Square>)
      ensures target == if Keeps(Elephant, board.grid, row, col, color, leap) then [LeapTarget(row, col, leap)] else []
    {
      var r2, c2 := row + leap.dr, col + leap.dc;
      var blockR, blockC := row + leap.br, col + leap.bc;
      if !IsInBounds(r2, c2) {
        return [];
      }
      if !CanCrossRiver(if color == RED then 'B' else 'b', r2) {
        return [];
      }
      if board.GetPiece(blockR, blockC).Some? {
        return [];
      }
      var targetPiece := board.GetPiece(r2, c2);
      if targetPiece.None? || GetPieceColor(targetPiece.value) != color {
        return [Square(r2, c2)];
      }
      return [];
    }

    /** _get_advisor_moves. */
    method AdvisorMoves(row: int, col: int, color: int) returns (moves: seq<Square>)
      ensures moves == LeapMoves(Advisor, board.grid, row, col, color)
    {
      moves := [];
      for i := 0 to |ADVISOR_STEPS|
        invariant moves == LeapMovesUpTo(Advisor, board.grid, row, col, color, i)
      {
        var target := PalaceTry(Advisor, row, col, color, ADVISOR_STEPS[i]);
        moves := moves + target;
      }
    }

    /** _get_king_moves. */
    method KingMoves(row: int, col: int, color: int) returns (moves: seq<Square>)
      ensures moves == LeapMoves(General, board.grid, row, col, color)
    {
      moves := [];
      for i := 0 to |GENERAL_STEPS|
        invariant moves == LeapMovesUpTo(General, board.grid, row, col, color, i)
      {
        var target := PalaceTry(General, row, col, color, GENERAL_STEPS[i]);
        moves := moves + target;
      }
    }

    /** One step of _get_advisor_moves or _get_king_moves: inside the palace and not landing on an own piece. */
    method PalaceTry(kind: Leaper, row: int, col: int, color: int, step: Leap) returns (target: seq<Square>)
      requires kind == Advisor || kind == General
      ensures target == if Keeps(kind, board.grid, row, col, color, step) then [LeapTarget(row, col, step)] else []
    {
      var r2, c2 := row + step.dr, col + step.dc;
      if !IsInPalace(r2, c2, color) {
        return [];
      }
      var targetPiece := board.GetPiece(r2, c2);
      if targetPiece.None? || GetPieceColor(targetPiece.value) != color {
        return [Square(r2, c2)];
      }
      return [];
    }

    /** _get_cannon_moves. */
    method CannonMoves(row: int, col: int, color: int) returns (moves: seq<Square>)
      ensures moves == MoveGen.CannonMoves(board.grid, row, col, color)
    {
      moves := [];
      for d := 0 to 4
        invariant moves == CannonMovesUpTo(board.grid, row, col, color, d)
      {
        var dr, dc := ORTHOGONAL[d].0, ORTHOGONAL[d].1;
        var ray := CannonRayScan(row + dr, col + dc, dr, dc, color);
        moves := moves + ray;
      }
    }

    /**
     * The inner while loop of _get_cannon_moves: quiet moves until the first
     * piece, which sets `jumped`; then the next piece ends the ray and is
     * kept when an enemy.
     */
    method CannonRayScan(r0: int, c0: int, dr: int, dc: int, color: int) returns (ray: seq<Square>)
      requires IsDirection(dr, dc)
      ensures ray == CannonRay(board.grid, r0, c0, dr, dc, color, false)
    {
      ray := [];
      var jumped := false;
      var r, c := r0, c0;
      while IsInBounds(r, c)
        invariant ray + CannonRay(board.grid, r, c, dr, dc, color, jumped) == CannonRay(board.grid, r0, c0, dr, dc, color, false)
        decreases StepsLeft(r, c, dr, dc)
      {
        var stop;
        ray, jumped, stop := CannonSquare(r, c, dr, dc, color, jumped, ray);
        if stop {
          return;
        }
        r := r + dr;
        c := c + dc;
      }
      assert ray + [] == ray;
    }

    /**
     * One square of that loop: an empty square is a quiet move until the
     * screen is found; the first piece becomes the screen; the next piece
     * ends the ray and is kept when an enemy.
     */
    method CannonSquare(r: int, c: int, dr: int, dc: int, color: int, jumped: bool, ray: seq<Square>)
      returns (ray': seq<Square>, jumped': bool, stop: bool)
      requires IsDirection(dr, dc) && IsInBounds(r, c)
      ensures stop ==> ray' == ray + CannonRay(board.grid, r, c, dr, dc, color, jumped)
      ensures !stop ==> ray' + CannonRay(board.grid, r + dr, c + dc, dr, dc, color, jumped')
                        == ray + CannonRay(board.grid, r, c, dr, dc, color, jumped)
    {
      var targetPiece := board.GetPiece(r, c);
      CannonRayStep(board.grid, r, c, dr, dc, color, jumped);
      ray', jumped', stop := ray, jumped, false;
      if targetPiece.None? {
        if !jumped {
          ray' := ray + [Square(r, c)];
        }
      } else if !jumped {
        jumped' := true;
      } else {
        if GetPieceColor(targetPiece.value) != color {
          ray' := ray + [Square(r, c)];
        }
        stop := true;
      }
    }

    /** _get_pawn_moves. */
    method PawnMoves(row: int, col: int, color: int) returns (moves: seq<Square>)
      ensures moves == MoveGen.PawnMoves(board.grid, row, col, color)
    {
      var crossed: bool;
      var forward: int;
      if color == RED {
        crossed := row > RIVER_ROW;
        forward := 1;
      } else {
        crossed := row < RIVER_ROW + 1;
        forward := -1;
      }
      var front := PawnTarget(row + forward, col, color);
      if crossed {
        var sides := PawnSides(row, col, color);
        moves := front + sides;
      } else {
        moves := front + [];
      }
    }

    /** The sideways loop a pawn runs once across the river, over the offsets -1 and +1. */
    method PawnSides(row: int, col: int, color: int) returns (moves: seq<Square>)
      ensures moves == PawnSidesUpTo(board.grid, row, col, color, 2)
    {
      moves := [];
      for i := 0 to 2
        invariant moves == PawnSidesUpTo(board.grid, row, col, color, i)
      {
        var side := PawnTarget(row, col + PAWN_SIDES[i], color);
        moves := moves + side;
      }
    }

    /** One square a pawn tries: kept when on the board and not holding a piece of its own colour. */
    method PawnTarget(r2: int, c2: int, color: int) returns (target: seq<Square>)
      ensures target == PawnStep(board.grid, r2, c2, color)
    {
      target := [];
      if IsInBounds(r2, c2) {
        var targetPiece := board.GetPiece(r2, c2);
        if targetPiece.None? || GetPieceColor(targetPiece.value) != color {
          target := [Square(r2, c2)];
        }
      }
    }

    /**
     * _is_legal_move: plays the move on a copy of the board and asks a rule
     * engine on that copy whether the mover is in check or the kings face
     * each other. The engine's own board is not changed.
     */
    method IsLegalMove(fromPos: Square, toPos: Square) returns (legal: bool)
      requires board.Valid()
      ensures legal == IsLegal(board.grid, Move(fromPos, toPos))
    {
      var tempBoard := board.Copy();
      var piece := tempBoard.GetPiece(fromPos.row, fromPos.col);
      if piece.None? {
        return false;
      }
      var color := GetPieceColor(piece.value);
      tempBoard.SetPiece(toPos.row, toPos.col, piece);
      tempBoard.SetPiece(fromPos.row, fromPos.col, None);
      assert tempBoard.grid == MovedGrid(board.grid, Move(fromPos, toPos));
      var tempEngine := new RuleEngine(tempBoard);
      var check := tempEngine.IsInCheck(color);
      if check {
        return false;
      }
      var flying := tempEngine.IsFlyingGeneral();
      if flying {
        return false;
      }
      return true;
    }

    /** is_in_check. */
    method IsInCheck(color: int) returns (check: bool)
      ensures check == InCheck(board.grid, color)
    {
      var kingPos := board.FindKing(color);
      if kingPos.None? {
        return false;
      }
      var enemyPieces := board.GetAllPieces(-color);
      ghost var lists := PseudoLists(board.grid, enemyPieces);
      AttackedIffHit(board.grid, kingPos.value, enemyPieces);
      for i := 0 to |enemyPieces|
        invariant !HitUpTo(lists, kingPos.value, i)
      {
        var hit := PieceAttacks(enemyPieces, i, kingPos.value);
        if hit {
          HitGrows(lists, kingPos.value, i + 1);
          return true;
        }
      }
      return false;
    }

    /** One turn of that loop: the target is among the i-th enemy's pseudo-legal moves. */
    method PieceAttacks(pieces: seq<Placed>, i: int, target: Square) returns (hit: bool)
      requires 0 <= i < |pieces|
      ensures hit == (target in PseudoLists(board.grid, pieces)[i])
    {
      var p := pieces[i];
      var pseudoMoves := PseudoLegalMoves(p.row, p.col, p.piece);
      hit := target in pseudoMoves;
    }

    /** _is_flying_general. */
    method IsFlyingGeneral() returns (flying: bool)
      ensures flying == FlyingGeneral(board.grid)
    {
      var redKingPos := board.FindKing(RED);
      var blackKingPos := board.FindKing(BLACK);
      if redKingPos.None? || blackKingPos.None? {
        return false;
      }
      var r1, c1 := redKingPos.value.row, redKingPos.value.col;
      var r2, c2 := blackKingPos.value.row, blackKingPos.value.col;
      if c1 != c2 {
        return false;
      }
      var minRow := if r1 < r2 then r1 else r2;
      var maxRow := if r1 < r2 then r2 else r1;
      var row := minRow + 1;
      while row < maxRow
        invariant forall r :: minRow < r < row ==> GetPiece(board.grid, r, c1).None?
      {
        if board.GetPiece(row, c1).Some? {
          return false;
        }
        row := row + 1;
      }
      return true;
    }

    /** One turn of that loop: get_legal_moves of the i-th piece is empty. */
    method PieceIsStuck(pieces: seq<Placed>, i: int) returns (stuck: bool)
      requires board.Valid() && 0 <= i < |pieces|
      ensures stuck == (TargetLists(board.grid, pieces)[i] == [])
    {
      var legalMoves := GetLegalMoves(pieces[i].row, pieces[i].col);
      stuck := legalMoves == [];
    }

    /** The piece loop shared by is_checkmate and is_stalemate: does any piece of `color` have a legal move? */
    method AnyLegalMove(color: int) returns (found: bool)
      requires board.Valid()
      ensures found == !NoLegalMoves(board.grid, color)
    {
      var pieces := board.GetAllPieces(color);
      ghost var lists := TargetLists(board.grid, pieces);
      NoLegalMovesIffNoneMovable(board.grid, color);
      for i := 0 to |pieces|
        invariant !SomeNonEmptyUpTo(lists, i)
      {
        var stuck := PieceIsStuck(pieces, i);
        if !stuck {
          SomeNonEmptyGrows(lists, i + 1);
          return true;
        }
      }
      return false;
    }

    /** is_checkmate. */
    method IsCheckmate(color: int) returns (mate: bool)
      requires board.Valid()
      ensures mate == Legality.IsCheckmate(board.grid, color)
    {
      var check := IsInCheck(color);
      if !check {
        return false;
      }
      var found := AnyLegalMove(color);
      return !found;
    }

    /** is_stalemate. */
    method IsStalemate(color: int) returns (stale: bool)
      requires board.Valid()
      ensures stale == Legality.IsStalemate(board.grid, color)
    {
      var check := IsInCheck(color);
      if check {
        return false;
      }
      var found := AnyLegalMove(color);
      return !found;
    }

    /** get_game_result. */
    method GetGameResult() returns (result: Option<int>)
      requires board.Valid()
      ensures result == GameResult(board.grid, board.currentPlayer)
    {
      var currentColor := board.currentPlayer;
      var mate := IsCheckmate(currentColor);
      if mate {
        return Some(-currentColor);
      }
      var stale := IsStalemate(currentColor);
      if stale {
        return Some(-currentColor);
      }
      return None;
    }
  }
}
