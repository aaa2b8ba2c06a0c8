/**
 * Legality and game-end rules of core/rules.py on a grid: check, the
 * flying-general rule, the legal-move filter, checkmate, stalemate and the
 * game result.
 */
module Legality {
  import opened Wrappers
  import opened Constants
  import opened Grids
  import opened MoveGen

  /** Some piece of `enemies` has `target` among its pseudo-legal targets. */
  predicate Attacked(g: Grid, target: Square, enemies: seq<Placed>)
  {
    exists i :: 0 <= i < |enemies| && target in PseudoMoves(g, enemies[i].row, enemies[i].col, enemies[i].piece)
  }

  /** The pseudo-legal targets of each listed piece. */
  function PseudoLists(g: Grid, pieces: seq<Placed>): seq<seq<Square>>
  {
    seq(|pieces|, i requires 0 <= i < |pieces| => PseudoMoves(g, pieces[i].row, pieces[i].col, pieces[i].piece))
  }

  /** One of the first n target lists holds `target`. */
  predicate HitUpTo(lists: seq<seq<Square>>, target: Square, n: int)
    requires 0 <= n <= |lists|
  {
    n > 0 && (HitUpTo(lists, target, n - 1) || target in lists[n - 1])
  }

  lemma {:induction false} HitUpToExact(lists: seq<seq<Square>>, target: Square, n: int)
    requires 0 <= n <= |lists|
    ensures HitUpTo(lists, target, n) <==> exists j :: 0 <= j < n && target in lists[j]
  {
    if n > 0 {
      HitUpToExact(lists, target, n - 1);
    }
  }

  /** Once one of the first i lists holds the target, one of the whole sequence does. */
  lemma HitGrows(lists: seq<seq<Square>>, target: Square, i: int)
    requires 0 <= i <= |lists| && HitUpTo(lists, target, i)
    ensures HitUpTo(lists, target, |lists|)
  {
    HitUpToExact(lists, target, i);
    HitUpToExact(lists, target, |lists|);
  }

  /** A square is attacked exactly when the enemies' target lists, scanned in order, meet it. */
  lemma AttackedIffHit(g: Grid, target: Square, enemies: seq<Placed>)
    ensures Attacked(g, target, enemies) <==> HitUpTo(PseudoLists(g, enemies), target, |enemies|)
  {
    var lists := PseudoLists(g, enemies);
    HitUpToExact(lists, target, |enemies|);
    if Attacked(g, target, enemies) {
      var i :| 0 <= i < |enemies| && target in PseudoMoves(g, enemies[i].row, enemies[i].col, enemies[i].piece);
      assert target in lists[i];
    }
  }

  /** is_in_check: the colour's king exists and an enemy piece attacks it. */
  predicate InCheck(g: Grid, color: int)
  {
    FindKing(g, color).Some? && Attacked(g, FindKing(g, color).value, AllPieces(g, -color))
  }

  /** No piece stands in column `col` strictly between rows a and b. */
  predicate ClearColumn(g: Grid, col: int, a: int, b: int)
  {
    forall r :: (if a < b then a else b) < r < (if a < b then b else a) ==> GetPiece(g, r, col).None?
  }

  /** _is_flying_general: both kings on one column with nothing between them. */
  predicate FlyingGeneral(g: Grid)
  {
    var red := FindKing(g, RED);
    var black := FindKing(g, BLACK);
    red.Some? && black.Some? && red.value.col == black.value.col
    && ClearColumn(g, red.value.col, red.value.row, black.value.row)
  }

  /** _is_legal_move: after moving, the mover is not in check and the kings do not face each other. */
  predicate IsLegal(g: Grid, m: Move)
  {
    var piece := GetPiece(g, m.from.row, m.from.col);
    piece.Some?
    && !InCheck(MovedGrid(g, m), GetPieceColor(piece.value))
    && !FlyingGeneral(MovedGrid(g, m))
  }

  /** The filter loop of get_legal_moves over the first n pseudo-legal targets. */
  function KeepLegal(g: Grid, from: Square, targets: seq<Square>, n: int): seq<Square>
    requires 0 <= n <= |targets|
  {
    if n == 0 then []
    else KeepLegal(g, from, targets, n - 1)
         + (if IsLegal(g, Move(from, targets[n - 1])) then [targets[n - 1]] else [])
  }

  /** get_legal_moves: nothing from an empty square, else the legal pseudo-legal targets in order. */
  function LegalMovesFrom(g: Grid, row: int, col: int): seq<Square>
  {
    var piece := GetPiece(g, row, col);
    if piece.None? then []
    else
      var pseudo := PseudoMoves(g, row, col, piece.value);
      KeepLegal(g, Square(row, col), pseudo, |pseudo|)
  }

  /** The moves from one square to each target, in order. */
  function MovesTo(from: Square, targets: seq<Square>): seq<Move>
  {
    if targets == [] then []
    else MovesTo(from, targets[..|targets| - 1]) + [Move(from, targets[|targets| - 1])]
  }

  /** The moves from each listed square to each of its targets, square by square, for the first n squares. */
  function Flatten(froms: seq<Square>, lists: seq<seq<Square>>, n: int): seq<Move>
    requires |froms| == |lists| && 0 <= n <= |lists|
  {
    if n == 0 then [] else Flatten(froms, lists, n - 1) + MovesTo(froms[n - 1], lists[n - 1])
  }

  function Origins(pieces: seq<Placed>): seq<Square>
  {
    seq(|pieces|, i requires 0 <= i < |pieces| => Square(pieces[i].row, pieces[i].col))
  }

  /** get_legal_moves of each listed piece. */
  function TargetLists(g: Grid, pieces: seq<Placed>): seq<seq<Square>>
  {
    seq(|pieces|, i requires 0 <= i < |pieces| => LegalMovesFrom(g, pieces[i].row, pieces[i].col))
  }

  /** All legal moves of a colour: its pieces in row-major order, each piece's targets in generator order. */
  function AllMoves(g: Grid, color: int): seq<Move>
  {
    var ps := AllPieces(g, color);
    Flatten(Origins(ps), TargetLists(g, ps), |ps|)
  }

  /** The colour has no piece with a legal move. */
  predicate NoLegalMoves(g: Grid, color: int)
  {
    var ps := AllPieces(g, color);
    forall i :: 0 <= i < |ps| ==> TargetLists(g, ps)[i] == []
  }

  predicate IsCheckmate(g: Grid, color: int)
  {
    InCheck(g, color) && NoLegalMoves(g, color)
  }

  predicate IsStalemate(g: Grid, color: int)
  {
    !InCheck(g, color) && NoLegalMoves(g, color)
  }

  /** get_game_result: the opponent of the side to move wins on checkmate and on stalemate. */
  function GameResult(g: Grid, side: int): Option<int>
  {
    if IsCheckmate(g, side) then Some(-side)
    else if IsStalemate(g, side) then Some(-side)
    else None
  }

  // ----- Lemmas -----

  lemma {:induction false} KeepLegalExact(g: Grid, from: Square, targets: seq<Square>, n: int)
    requires 0 <= n <= |targets|
    ensures forall t :: t in KeepLegal(g, from, targets, n) <==> t in targets[..n] && IsLegal(g, Move(from, t))
  {
    if n > 0 {
      KeepLegalExact(g, from, targets, n - 1);
      assert targets[..n] == targets[..n - 1] + [targets[n - 1]];
    }
  }

  /**
   * get_legal_moves returns nothing for an empty square; otherwise its
   * targets are exactly the pseudo-legal targets whose move is legal, and
   * each lies on the board, differs from the source and does not hold a
   * piece of the mover's colour.
   */
  lemma LegalMovesExact(g: Grid, row: int, col: int)
    ensures GetPiece(g, row, col).None? ==> LegalMovesFrom(g, row, col) == []
    ensures GetPiece(g, row, col).Some? ==>
      forall t :: t in LegalMovesFrom(g, row, col) <==>
        t in PseudoMoves(g, row, col, GetPiece(g, row, col).value) && IsLegal(g, Move(Square(row, col), t))
    ensures forall t :: t in LegalMovesFrom(g, row, col) ==>
      IsInBounds(t.row, t.col) && t != Square(row, col)
      && CanLand(g, t.row, t.col, GetPieceColor(GetPiece(g, row, col).value))
  {
    var piece := GetPiece(g, row, col);
    if piece.Some? {
      var pseudo := PseudoMoves(g, row, col, piece.value);
      KeepLegalExact(g, Square(row, col), pseudo, |pseudo|);
      assert pseudo[..|pseudo|] == pseudo;
      PseudoMovesSound(g, row, col, piece.value);
    }
  }


  lemma {:induction false} MovesToExact(from: Square, targets: seq<Square>)
    ensures |MovesTo(from, targets)| == |targets|
    ensures forall i :: 0 <= i < |targets| ==> MovesTo(from, targets)[i] == Move(from, targets[i])
  {
    if targets != [] {
      MovesToExact(from, targets[..|targets| - 1]);
    }
  }

  lemma {:induction false} FlattenEmpty(froms: seq<Square>, lists: seq<seq<Square>>, n: int)
    requires |froms| == |lists| && 0 <= n <= |lists|
    ensures Flatten(froms, lists, n) == [] <==> forall i :: 0 <= i < n ==> lists[i] == []
  {
    if n > 0 {
      FlattenEmpty(froms, lists, n - 1);
      MovesToExact(froms[n - 1], lists[n - 1]);
    }
  }

  /** A colour has no legal move exactly when the list of all its moves is empty. */
  lemma NoLegalMovesIffEmpty(g: Grid, color: int)
    ensures NoLegalMoves(g, color) <==> AllMoves(g, color) == []
  {
    var ps := AllPieces(g, color);
    FlattenEmpty(Origins(ps), TargetLists(g, ps), |ps|);
  }

  lemma {:induction false} FlattenSound(froms: seq<Square>, lists: seq<seq<Square>>, n: int)
    requires |froms| == |lists| && 0 <= n <= |lists|
    ensures forall m :: m in Flatten(froms, lists, n) ==>
      exists i :: 0 <= i < n && m.from == froms[i] && m.to in lists[i]
  {
    if n > 0 {
      FlattenSound(froms, lists, n - 1);
      MovesToExact(froms[n - 1], lists[n - 1]);
      forall m | m in MovesTo(froms[n - 1], lists[n - 1])
        ensures m.from == froms[n - 1] && m.to in lists[n - 1]
      {
        var k :| 0 <= k < |MovesTo(froms[n - 1], lists[n - 1])| && MovesTo(froms[n - 1], lists[n - 1])[k] == m;
      }
    }
  }

  /**
   * Every move of AllMoves starts on a square holding a piece of that
   * colour and is legal there: its target is a legal target of that piece.
   */
  lemma AllMovesSound(g: Grid, color: int)
    ensures forall m :: m in AllMoves(g, color) ==>
      IsInBounds(m.from.row, m.from.col) && GetPiece(g, m.from.row, m.from.col).Some?
      && GetPiece(g, m.from.row, m.from.col).value in TargetSet(color)
      && IsLegal(g, m) && IsInBounds(m.to.row, m.to.col) && m.from != m.to
  {
    var ps := AllPieces(g, color);
    FlattenSound(Origins(ps), TargetLists(g, ps), |ps|);
    AllPiecesExact(g, color);
    forall m | m in AllMoves(g, color)
      ensures IsInBounds(m.from.row, m.from.col) && GetPiece(g, m.from.row, m.from.col).Some?
      ensures GetPiece(g, m.from.row, m.from.col).value in TargetSet(color)
      ensures IsLegal(g, m) && IsInBounds(m.to.row, m.to.col) && m.from != m.to
    {
      var i :| 0 <= i < |ps| && m.from == Origins(ps)[i] && m.to in TargetLists(g, ps)[i];
      assert ps[i] in ps;
      LegalMovesExact(g, ps[i].row, ps[i].col);
    }
  }

  /**
   * Every move generated for a colour leaves that colour out of check and
   * the two kings not facing each other. The colour is the one whose piece
   * set get_all_pieces scans: Red's for RED, Black's for any other value.
   */
  lemma LegalMoveIsSafe(g: Grid, color: int, m: Move)
    requires m in AllMoves(g, color)
    ensures GetPiece(g, m.from.row, m.from.col).Some?
    ensures !InCheck(MovedGrid(g, m), if color == RED then RED else BLACK)
    ensures !FlyingGeneral(MovedGrid(g, m))
  {
    AllMovesSound(g, color);
  }

  /** Some of the first n target lists is non-empty. */
  predicate SomeNonEmptyUpTo(lists: seq<seq<Square>>, n: int)
    requires 0 <= n <= |lists|
  {
    n > 0 && (SomeNonEmptyUpTo(lists, n - 1) || lists[n - 1] != [])
  }

  lemma {:induction false} SomeNonEmptyUpToExact(lists: seq<seq<Square>>, n: int)
    requires 0 <= n <= |lists|
    ensures SomeNonEmptyUpTo(lists, n) <==> exists j :: 0 <= j < n && lists[j] != []
  {
    if n > 0 {
      SomeNonEmptyUpToExact(lists, n - 1);
    }
  }

  /** Once one of the first i lists is non-empty, some list of the whole sequence is. */
  lemma SomeNonEmptyGrows(lists: seq<seq<Square>>, i: int)
    requires 0 <= i <= |lists| && SomeNonEmptyUpTo(lists, i)
    ensures SomeNonEmptyUpTo(lists, |lists|)
  {
    SomeNonEmptyUpToExact(lists, i);
    SomeNonEmptyUpToExact(lists, |lists|);
  }

  /** A colour has no legal move exactly when none of its pieces, scanned in order, can move. */
  lemma NoLegalMovesIffNoneMovable(g: Grid, color: int)
    ensures NoLegalMoves(g, color) <==> !SomeNonEmptyUpTo(TargetLists(g, AllPieces(g, color)), |AllPieces(g, color)|)
  {
    SomeNonEmptyUpToExact(TargetLists(g, AllPieces(g, color)), |AllPieces(g, color)|);
  }

  /** Checkmate requires check and stalemate forbids it, so no position is both. */
  lemma MateAndStalemateExclusive(g: Grid, color: int)
    ensures !(IsCheckmate(g, color) && IsStalemate(g, color))
    ensures NoLegalMoves(g, color) <==> IsCheckmate(g, color) || IsStalemate(g, color)
  {
  }

  /**
   * The game is over exactly when the side to move has no legal move, and
   * then the opponent is the winner: get_game_result never names the side
   * to move.
   */
  lemma GameResultExact(g: Grid, side: int)
    ensures GameResult(g, side).Some? <==> AllMoves(g, side) == []
    ensures GameResult(g, side).Some? ==> GameResult(g, side).value == -side
    ensures side in {RED, BLACK} ==> GameResult(g, side) != Some(side)
  {
    NoLegalMovesIffEmpty(g, side);
  }
}
