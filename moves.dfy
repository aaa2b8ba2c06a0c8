/**
 * Pseudo-legal move generation of core/rules.py as functions on a grid: the
 * sliding rook and cannon, the four leaping pieces (knight, elephant,
 * advisor, king) and the pawn. The RuleEngine methods are proved equal to
 * these; the lemmas here state the geometry each generator promises.
 */
module MoveGen {
  import opened Wrappers
  import opened Constants
  import opened Grids

  /** A square the mover may land on: empty, or holding a piece of another colour. */
  predicate CanLand(g: Grid, r: int, c: int, color: int)
  {
    GetPiece(g, r, c).None? || GetPieceColor(GetPiece(g, r, c).value) != color
  }

  /** One of the four orthogonal unit steps. */
  predicate IsDirection(dr: int, dc: int)
  {
    (dr == 0 && (dc == 1 || dc == -1)) || (dc == 0 && (dr == 1 || dr == -1))
  }

  /** Up, down, right, left: the order the rook, cannon and king try them. */
  const ORTHOGONAL: seq<(int, int)> := [(1, 0), (-1, 0), (0, 1), (0, -1)]

  /** How many squares remain before a step in direction (dr, dc) leaves the board. */
  function StepsLeft(r: int, c: int, dr: int, dc: int): int
  {
    if dr == 1 then 10 - r else if dr == -1 then r + 1 else if dc == 1 then 9 - c else c + 1
  }

  /** s lies on the ray from (r, c) in direction (dr, dc), (r, c) included. */
  predicate Ahead(r: int, c: int, dr: int, dc: int, s: Square)
  {
    if dr == 1 then s.col == c && s.row >= r
    else if dr == -1 then s.col == c && s.row <= r
    else if dc == 1 then s.row == r && s.col >= c
    else s.row == r && s.col <= c
  }

  // ----- Rook -----

  /** The inner while loop of _get_rook_moves from (r, c) on. */
  function RookRay(g: Grid, r: int, c: int, dr: int, dc: int, color: int): seq<Square>
    requires IsDirection(dr, dc)
    decreases StepsLeft(r, c, dr, dc)
  {
    if !IsInBounds(r, c) then []
    else if g[r][c].None? then [Square(r, c)] + RookRay(g, r + dr, c + dc, dr, dc, color)
    else if GetPieceColor(g[r][c].value) != color then [Square(r, c)]
    else []
  }

  /** _get_rook_moves over the first n directions. */
  function RookMovesUpTo(g: Grid, row: int, col: int, color: int, n: int): seq<Square>
    requires 0 <= n <= 4
  {
    if n == 0 then []
    else
      var d := ORTHOGONAL[n - 1];
      RookMovesUpTo(g, row, col, color, n - 1) + RookRay(g, row + d.0, col + d.1, d.0, d.1, color)
  }

  function RookMoves(g: Grid, row: int, col: int, color: int): seq<Square>
  {
    RookMovesUpTo(g, row, col, color, 4)
  }

  // ----- Cannon -----

  /** The inner while loop of _get_cannon_moves from (r, c) on, with the `jumped` flag. */
  function CannonRay(g: Grid, r: int, c: int, dr: int, dc: int, color: int, jumped: bool): seq<Square>
    requires IsDirection(dr, dc)
    decreases StepsLeft(r, c, dr, dc)
  {
    if !IsInBounds(r, c) then []
    else if g[r][c].None? then
      (if !jumped then [Square(r, c)] else []) + CannonRay(g, r + dr, c + dc, dr, dc, color, jumped)
    else if !jumped then CannonRay(g, r + dr, c + dc, dr, dc, color, true)
    else if GetPieceColor(g[r][c].value) != color then [Square(r, c)]
    else []
  }

  function CannonMovesUpTo(g: Grid, row: int, col: int, color: int, n: int): seq<Square>
    requires 0 <= n <= 4
  {
    if n == 0 then []
    else
      var d := ORTHOGONAL[n - 1];
      CannonMovesUpTo(g, row, col, color, n - 1) + CannonRay(g, row + d.0, col + d.1, d.0, d.1, color, false)
  }

  function CannonMoves(g: Grid, row: int, col: int, color: int): seq<Square>
  {
    CannonMovesUpTo(g, row, col, color, 4)
  }

  // ----- A reference description of both rays -----

  /** The empty squares met from (r, c) before the first piece or the edge. */
  function EmptyRun(g: Grid, r: int, c: int, dr: int, dc: int): seq<Square>
    requires IsDirection(dr, dc)
    decreases StepsLeft(r, c, dr, dc)
  {
    if !IsInBounds(r, c) || g[r][c].Some? then []
    else [Square(r, c)] + EmptyRun(g, r + dr, c + dc, dr, dc)
  }

  /** The first occupied square from (r, c) on, if any. */
  function FirstPiece(g: Grid, r: int, c: int, dr: int, dc: int): Option<Square>
    requires IsDirection(dr, dc)
    decreases StepsLeft(r, c, dr, dc)
  {
    if !IsInBounds(r, c) then None
    else if g[r][c].Some? then Some(Square(r, c))
    else FirstPiece(g, r + dr, c + dc, dr, dc)
  }

  /** The square, as a one-element list, when it holds a piece not of `color`. */
  function EnemyAt(g: Grid, s: Option<Square>, color: int): seq<Square>
  {
    if s.Some? && GetPiece(g, s.value.row, s.value.col).Some?
       && GetPieceColor(GetPiece(g, s.value.row, s.value.col).value) != color
    then [s.value] else []
  }

  lemma {:induction false} EmptyRunShape(g: Grid, r: int, c: int, dr: int, dc: int)
    requires IsDirection(dr, dc)
    ensures forall s :: s in EmptyRun(g, r, c, dr, dc) ==>
      IsInBounds(s.row, s.col) && g[s.row][s.col].None? && Ahead(r, c, dr, dc, s)
    ensures FirstPiece(g, r, c, dr, dc).Some? ==>
      var p := FirstPiece(g, r, c, dr, dc).value;
      IsInBounds(p.row, p.col) && g[p.row][p.col].Some? && Ahead(r, c, dr, dc, p)
    decreases StepsLeft(r, c, dr, dc)
  {
    if IsInBounds(r, c) && g[r][c].None? {
      EmptyRunShape(g, r + dr, c + dc, dr, dc);
    }
  }

  /**
   * A rook ray is the run of empty squares followed by the first piece met,
   * when that piece is an enemy.
   */
  lemma {:induction false} RookRayIsRunThenCapture(g: Grid, r: int, c: int, dr: int, dc: int, color: int)
    requires IsDirection(dr, dc)
    ensures RookRay(g, r, c, dr, dc, color)
         == EmptyRun(g, r, c, dr, dc) + EnemyAt(g, FirstPiece(g, r, c, dr, dc), color)
    decreases StepsLeft(r, c, dr, dc)
  {
    if IsInBounds(r, c) && g[r][c].None? {
      RookRayIsRunThenCapture(g, r + dr, c + dc, dr, dc, color);
    }
  }

  /** After the screen has been jumped, the ray yields only the next piece, when it is an enemy. */
  lemma {:induction false} CannonAfterScreen(g: Grid, r: int, c: int, dr: int, dc: int, color: int)
    requires IsDirection(dr, dc)
    ensures CannonRay(g, r, c, dr, dc, color, true) == EnemyAt(g, FirstPiece(g, r, c, dr, dc), color)
    decreases StepsLeft(r, c, dr, dc)
  {
    if IsInBounds(r, c) && g[r][c].None? {
      CannonAfterScreen(g, r + dr, c + dc, dr, dc, color);
    }
  }

  /** What a cannon ray yields past its run of empty squares: given the screen, the next piece beyond it when that is an enemy. */
  function AfterScreen(g: Grid, screen: Option<Square>, dr: int, dc: int, color: int): seq<Square>
    requires IsDirection(dr, dc)
  {
    match screen
    case None => []
    case Some(s) => EnemyAt(g, FirstPiece(g, s.row + dr, s.col + dc, dr, dc), color)
  }

  /** One square of _get_cannon_moves' inner loop, in each of its four cases. */
  lemma CannonRayStep(g: Grid, r: int, c: int, dr: int, dc: int, color: int, jumped: bool)
    requires IsDirection(dr, dc) && IsInBounds(r, c)
    ensures g[r][c].None? && !jumped ==>
      CannonRay(g, r, c, dr, dc, color, jumped) == [Square(r, c)] + CannonRay(g, r + dr, c + dc, dr, dc, color, jumped)
    ensures g[r][c].None? && jumped ==>
      CannonRay(g, r, c, dr, dc, color, jumped) == CannonRay(g, r + dr, c + dc, dr, dc, color, jumped)
    ensures g[r][c].Some? && !jumped ==>
      CannonRay(g, r, c, dr, dc, color, jumped) == CannonRay(g, r + dr, c + dc, dr, dc, color, true)
    ensures g[r][c].Some? && jumped ==>
      CannonRay(g, r, c, dr, dc, color, jumped) == if GetPieceColor(g[r][c].value) != color then [Square(r, c)] else []
  {
  }

  /** An empty square adds itself to the run and to the cannon's quiet moves, and moves the search for the screen on. */
  lemma CannonEmptyStep(g: Grid, r: int, c: int, dr: int, dc: int, color: int)
    requires IsDirection(dr, dc) && IsInBounds(r, c) && g[r][c].None?
    ensures CannonRay(g, r, c, dr, dc, color, false) == [Square(r, c)] + CannonRay(g, r + dr, c + dc, dr, dc, color, false)
    ensures EmptyRun(g, r, c, dr, dc) == [Square(r, c)] + EmptyRun(g, r + dr, c + dc, dr, dc)
    ensures FirstPiece(g, r, c, dr, dc) == FirstPiece(g, r + dr, c + dc, dr, dc)
  {
  }

  /**
   * A cannon ray is the run of empty squares up to the first piece (the
   * screen), followed by the first piece beyond the screen when it is an
   * enemy: quiet moves never pass a piece and exactly one screen precedes
   * the only capture.
   */
  lemma {:induction false} CannonRayJumpsOneScreen(g: Grid, r: int, c: int, dr: int, dc: int, color: int)
    requires IsDirection(dr, dc)
    ensures CannonRay(g, r, c, dr, dc, color, false)
         == EmptyRun(g, r, c, dr, dc) + AfterScreen(g, FirstPiece(g, r, c, dr, dc), dr, dc, color)
    decreases StepsLeft(r, c, dr, dc)
  {
    if IsInBounds(r, c) {
      if g[r][c].None? {
        CannonRayJumpsOneScreen(g, r + dr, c + dc, dr, dc, color);
        CannonEmptyStep(g, r, c, dr, dc, color);
        var rest := AfterScreen(g, FirstPiece(g, r + dr, c + dc, dr, dc), dr, dc, color);
        var run := EmptyRun(g, r + dr, c + dc, dr, dc);
        assert [Square(r, c)] + (run + rest) == ([Square(r, c)] + run) + rest;
      } else {
        CannonAfterScreen(g, r + dr, c + dc, dr, dc, color);
        assert EmptyRun(g, r, c, dr, dc) == [];
        assert FirstPiece(g, r, c, dr, dc) == Some(Square(r, c));
      }
    }
  }

  /** Every square of a rook ray is on the board, ahead of its start, and empty or an enemy. */
  lemma {:induction false} RookRaySound(g: Grid, r: int, c: int, dr: int, dc: int, color: int)
    requires IsDirection(dr, dc)
    ensures forall s :: s in RookRay(g, r, c, dr, dc, color) ==>
      IsInBounds(s.row, s.col) && Ahead(r, c, dr, dc, s) && CanLand(g, s.row, s.col, color)
    decreases StepsLeft(r, c, dr, dc)
  {
    if IsInBounds(r, c) && g[r][c].None? {
      RookRaySound(g, r + dr, c + dc, dr, dc, color);
    }
  }

  /** Every square of a cannon ray is on the board, ahead of its start, and empty or an enemy. */
  lemma {:induction false} CannonRaySound(g: Grid, r: int, c: int, dr: int, dc: int, color: int, jumped: bool)
    requires IsDirection(dr, dc)
    ensures forall s :: s in CannonRay(g, r, c, dr, dc, color, jumped) ==>
      IsInBounds(s.row, s.col) && Ahead(r, c, dr, dc, s) && CanLand(g, s.row, s.col, color)
    decreases StepsLeft(r, c, dr, dc)
  {
    if IsInBounds(r, c) {
      if g[r][c].None? {
        CannonRaySound(g, r + dr, c + dc, dr, dc, color, jumped);
      } else if !jumped {
        CannonRaySound(g, r + dr, c + dc, dr, dc, color, true);
      }
    }
  }

  // ----- Leaping pieces -----

  /** A target offset and the offset of the square that blocks it (the knight's leg, the elephant's eye). */
  datatype Leap = Leap(dr: int, dc: int, br: int, bc: int)

  datatype Leaper = Knight | Elephant | Advisor | General

  const KNIGHT_LEAPS: seq<Leap> := [
    Leap(2, 1, 1, 0), Leap(2, -1, 1, 0), Leap(-2, 1, -1, 0), Leap(-2, -1, -1, 0),
    Leap(1, 2, 0, 1), Leap(-1, 2, 0, 1), Leap(1, -2, 0, -1), Leap(-1, -2, 0, -1)]

  const ELEPHANT_LEAPS: seq<Leap> := [
    Leap(2, 2, 1, 1), Leap(2, -2, 1, -1), Leap(-2, 2, -1, 1), Leap(-2, -2, -1, -1)]

  /** Advisor and king steps; their block offsets are unused. */
  const ADVISOR_STEPS: seq<Leap> := [Leap(1, 1, 0, 0), Leap(1, -1, 0, 0), Leap(-1, 1, 0, 0), Leap(-1, -1, 0, 0)]
  const GENERAL_STEPS: seq<Leap> := [Leap(1, 0, 0, 0), Leap(-1, 0, 0, 0), Leap(0, 1, 0, 0), Leap(0, -1, 0, 0)]

  function Leaps(kind: Leaper): seq<Leap>
  {
    match kind
    case Knight => KNIGHT_LEAPS
    case Elephant => ELEPHANT_LEAPS
    case Advisor => ADVISOR_STEPS
    case General => GENERAL_STEPS
  }

  /** The elephant character of a colour, as _get_bishop_moves passes it to can_cross_river. */
  function ElephantOf(color: int): char
  {
    if color == RED then 'B' else 'b'
  }

  /** The checks each generator makes, in the source's order, before it keeps a target. */
  predicate Keeps(kind: Leaper, g: Grid, row: int, col: int, color: int, l: Leap)
  {
    var r2 := row + l.dr;
    var c2 := col + l.dc;
    match kind
    case Knight =>
      IsInBounds(r2, c2) && GetPiece(g, row + l.br, col + l.bc).None? && CanLand(g, r2, c2, color)
    case Elephant =>
      IsInBounds(r2, c2) && CanCrossRiver(ElephantOf(color), r2)
      && GetPiece(g, row + l.br, col + l.bc).None? && CanLand(g, r2, c2, color)
    case Advisor => IsInPalace(r2, c2, color) && CanLand(g, r2, c2, color)
    case General => IsInPalace(r2, c2, color) && CanLand(g, r2, c2, color)
  }

  function LeapTarget(row: int, col: int, l: Leap): Square
  {
    Square(row + l.dr, col + l.dc)
  }

  /** The generator's loop over its first n offsets. */
  function LeapMovesUpTo(kind: Leaper, g: Grid, row: int, col: int, color: int, n: int): seq<Square>
    requires 0 <= n <= |Leaps(kind)|
  {
    if n == 0 then []
    else
      var l := Leaps(kind)[n - 1];
      LeapMovesUpTo(kind, g, row, col, color, n - 1)
        + (if Keeps(kind, g, row, col, color, l) then [LeapTarget(row, col, l)] else [])
  }

  function LeapMoves(kind: Leaper, g: Grid, row: int, col: int, color: int): seq<Square>
  {
    LeapMovesUpTo(kind, g, row, col, color, |Leaps(kind)|)
  }

  /** The targets of the first n offsets are the targets of the offsets among them that pass the checks. */
  ghost predicate LeapMovesUpToIs(kind: Leaper, g: Grid, row: int, col: int, color: int, n: int)
    requires 0 <= n <= |Leaps(kind)|
  {
    forall s :: s in LeapMovesUpTo(kind, g, row, col, color, n) <==>
      exists i :: 0 <= i < n && s == LeapTarget(row, col, Leaps(kind)[i]) && Keeps(kind, g, row, col, color, Leaps(kind)[i])
  }

  lemma {:induction false} LeapMovesUpToExact(kind: Leaper, g: Grid, row: int, col: int, color: int, n: int)
    requires 0 <= n <= |Leaps(kind)|
    ensures LeapMovesUpToIs(kind, g, row, col, color, n)
  {
    if n > 0 {
      LeapMovesUpToExact(kind, g, row, col, color, n - 1);
      LeapMovesUpToStep(kind, g, row, col, color, n);
    }
  }

  /** One offset more: its target joins the list exactly when it passes the checks. */
  lemma LeapMovesUpToStep(kind: Leaper, g: Grid, row: int, col: int, color: int, n: int)
    requires 0 < n <= |Leaps(kind)|
    requires LeapMovesUpToIs(kind, g, row, col, color, n - 1)
    ensures LeapMovesUpToIs(kind, g, row, col, color, n)
  {
    var l := Leaps(kind)[n - 1];
    var prefix := LeapMovesUpTo(kind, g, row, col, color, n - 1);
    var tail := if Keeps(kind, g, row, col, color, l) then [LeapTarget(row, col, l)] else [];
    assert LeapMovesUpTo(kind, g, row, col, color, n) == prefix + tail;
    forall s
      ensures s in prefix + tail <==>
        exists i :: 0 <= i < n && s == LeapTarget(row, col, Leaps(kind)[i]) && Keeps(kind, g, row, col, color, Leaps(kind)[i])
    {
      if s in tail {
        assert s == LeapTarget(row, col, Leaps(kind)[n - 1]) && Keeps(kind, g, row, col, color, Leaps(kind)[n - 1]);
      }
    }
  }

  /** No two offsets of one table lead to the same square. */
  lemma LeapsDistinct(kind: Leaper)
    ensures forall i, j :: 0 <= i < |Leaps(kind)| && 0 <= j < |Leaps(kind)| && i != j ==>
      (Leaps(kind)[i].dr, Leaps(kind)[i].dc) != (Leaps(kind)[j].dr, Leaps(kind)[j].dc)
  {
    match kind
    case Knight =>
    case Elephant =>
    case Advisor =>
    case General =>
  }

  /**
   * A leaping piece's targets are exactly the offsets of its table that pass
   * its checks; since the offsets of a table are distinct, each offset's
   * target is present exactly when that offset passes.
   */
  lemma LeapMovesExact(kind: Leaper, g: Grid, row: int, col: int, color: int)
    ensures forall s :: s in LeapMoves(kind, g, row, col, color) <==>
      exists l :: l in Leaps(kind) && s == LeapTarget(row, col, l) && Keeps(kind, g, row, col, color, l)
    ensures forall l :: l in Leaps(kind) ==>
      (LeapTarget(row, col, l) in LeapMoves(kind, g, row, col, color) <==> Keeps(kind, g, row, col, color, l))
  {
    var ls := Leaps(kind);
    var moves := LeapMoves(kind, g, row, col, color);
    LeapMovesUpToExact(kind, g, row, col, color, |ls|);
    LeapsDistinct(kind);
    forall s | s in moves
      ensures exists l :: l in ls && s == LeapTarget(row, col, l) && Keeps(kind, g, row, col, color, l)
    {
      var i :| 0 <= i < |ls| && s == LeapTarget(row, col, ls[i]) && Keeps(kind, g, row, col, color, ls[i]);
      assert ls[i] in ls;
    }
    forall l | l in ls
      ensures LeapTarget(row, col, l) in moves <==> Keeps(kind, g, row, col, color, l)
    {
      var k :| 0 <= k < |ls| && ls[k] == l;
      if LeapTarget(row, col, l) in moves {
        var i :| 0 <= i < |ls| && LeapTarget(row, col, l) == LeapTarget(row, col, ls[i]) && Keeps(kind, g, row, col, color, ls[i]);
        assert i == k;
      }
    }
  }

  /** Advisor and king targets always lie inside the mover's own palace. */
  lemma PalacePiecesStayHome(g: Grid, row: int, col: int, color: int)
    ensures forall s :: s in LeapMoves(Advisor, g, row, col, color) ==> IsInPalace(s.row, s.col, color)
    ensures forall s :: s in LeapMoves(General, g, row, col, color) ==> IsInPalace(s.row, s.col, color)
  {
    LeapMovesExact(Advisor, g, row, col, color);
    LeapMovesExact(General, g, row, col, color);
  }

  /**
   * Elephant targets are diagonal two-steps on the mover's side of the
   * river (rows 0-4 for Red, 5-9 otherwise) whose eye square is empty.
   */
  lemma ElephantsStayHome(g: Grid, row: int, col: int, color: int)
    ensures forall s :: s in LeapMoves(Elephant, g, row, col, color) ==>
      (if color == RED then s.row <= 4 else s.row >= 5)
      && (s.row == row + 2 || s.row == row - 2) && (s.col == col + 2 || s.col == col - 2)
      && GetPiece(g, row + (s.row - row) / 2, col + (s.col - col) / 2).None?
  {
    forall s | s in LeapMoves(Elephant, g, row, col, color)
      ensures (if color == RED then s.row <= 4 else s.row >= 5)
      ensures (s.row == row + 2 || s.row == row - 2) && (s.col == col + 2 || s.col == col - 2)
      ensures GetPiece(g, row + (s.row - row) / 2, col + (s.col - col) / 2).None?
    {
      ElephantTargetHome(g, row, col, color, s);
    }
  }

  /** One elephant target: a diagonal two-step on the home side over an empty eye. */
  lemma ElephantTargetHome(g: Grid, row: int, col: int, color: int, s: Square)
    requires s in LeapMoves(Elephant, g, row, col, color)
    ensures if color == RED then s.row <= 4 else s.row >= 5
    ensures (s.row == row + 2 || s.row == row - 2) && (s.col == col + 2 || s.col == col - 2)
    ensures GetPiece(g, row + (s.row - row) / 2, col + (s.col - col) / 2).None?
  {
    LeapMovesExact(Elephant, g, row, col, color);
    var l :| l in Leaps(Elephant) && s == LeapTarget(row, col, l) && Keeps(Elephant, g, row, col, color, l);
    ElephantStaysHome(row + l.dr);
    assert (l.dr == 2 || l.dr == -2) && (l.dc == 2 || l.dc == -2);
    assert l.dr / 2 == l.br && l.dc / 2 == l.bc;
  }

  // ----- Pawn -----

  /** Whether a pawn of `color` on `row` has crossed the river. */
  predicate Crossed(row: int, color: int)
  {
    if color == RED then row > RIVER_ROW else row < RIVER_ROW + 1
  }

  function Forward(color: int): int
  {
    if color == RED then 1 else -1
  }

  function PawnStep(g: Grid, r2: int, c2: int, color: int): seq<Square>
  {
    if IsInBounds(r2, c2) && CanLand(g, r2, c2, color) then [Square(r2, c2)] else []
  }

  /** The sideways offsets a pawn tries once across the river, in order. */
  const PAWN_SIDES: seq<int> := [-1, 1]

  /** The loop over the first n sideways offsets. */
  function PawnSidesUpTo(g: Grid, row: int, col: int, color: int, n: int): seq<Square>
    requires 0 <= n <= 2
  {
    if n == 0 then []
    else PawnSidesUpTo(g, row, col, color, n - 1) + PawnStep(g, row, col + PAWN_SIDES[n - 1], color)
  }

  /** _get_pawn_moves: the forward step, then the two sideways steps once across the river. */
  function PawnMoves(g: Grid, row: int, col: int, color: int): seq<Square>
  {
    PawnStep(g, row + Forward(color), col, color)
      + (if Crossed(row, color) then PawnSidesUpTo(g, row, col, color, 2) else [])
  }

  /**
   * A pawn's targets are the forward square (+1 row for Red, -1 for Black)
   * and, only once across the river, the two squares beside it; each is
   * kept when on the board and not holding an own piece.
   */
  lemma PawnMovesExact(g: Grid, row: int, col: int, color: int)
    ensures forall s :: s in PawnMoves(g, row, col, color) <==>
      IsInBounds(s.row, s.col) && CanLand(g, s.row, s.col, color)
      && ((s.row == row + Forward(color) && s.col == col)
          || (Crossed(row, color) && s.row == row && (s.col == col - 1 || s.col == col + 1)))
  {
    var front := PawnStep(g, row + Forward(color), col, color);
    var left := PawnStep(g, row, col - 1, color);
    var right := PawnStep(g, row, col + 1, color);
    assert PawnSidesUpTo(g, row, col, color, 1) == [] + left;
    assert PawnMoves(g, row, col, color) == front + (if Crossed(row, color) then left + right else []);
    PawnStepMembers(g, row + Forward(color), col, color);
    PawnStepMembers(g, row, col - 1, color);
    PawnStepMembers(g, row, col + 1, color);
  }

  /** The one square a pawn step tries is its only possible target. */
  lemma PawnStepMembers(g: Grid, r2: int, c2: int, color: int)
    ensures forall s :: s in PawnStep(g, r2, c2, color) <==>
      s == Square(r2, c2) && IsInBounds(r2, c2) && CanLand(g, r2, c2, color)
  {
  }

  // ----- Dispatch -----

  /** _get_pseudo_legal_moves: dispatch on the upper-cased piece letter; an unknown letter has no moves. */
  function PseudoMoves(g: Grid, row: int, col: int, piece: char): seq<Square>
  {
    var t := Upper(piece);
    var color := GetPieceColor(piece);
    if t == 'R' then RookMoves(g, row, col, color)
    else if t == 'N' then LeapMoves(Knight, g, row, col, color)
    else if t == 'B' then LeapMoves(Elephant, g, row, col, color)
    else if t == 'A' then LeapMoves(Advisor, g, row, col, color)
    else if t == 'K' then LeapMoves(General, g, row, col, color)
    else if t == 'C' then CannonMoves(g, row, col, color)
    else if t == 'P' then PawnMoves(g, row, col, color)
    else []
  }

  lemma {:induction false} RookMovesSound(g: Grid, row: int, col: int, color: int, n: int)
    requires 0 <= n <= 4
    ensures forall s :: s in RookMovesUpTo(g, row, col, color, n) ==>
      IsInBounds(s.row, s.col) && s != Square(row, col) && CanLand(g, s.row, s.col, color)
  {
    if n > 0 {
      RookMovesSound(g, row, col, color, n - 1);
      var d := ORTHOGONAL[n - 1];
      RookRaySound(g, row + d.0, col + d.1, d.0, d.1, color);
    }
  }

  lemma {:induction false} CannonMovesSound(g: Grid, row: int, col: int, color: int, n: int)
    requires 0 <= n <= 4
    ensures forall s :: s in CannonMovesUpTo(g, row, col, color, n) ==>
      IsInBounds(s.row, s.col) && s != Square(row, col) && CanLand(g, s.row, s.col, color)
  {
    if n > 0 {
      CannonMovesSound(g, row, col, color, n - 1);
      var d := ORTHOGONAL[n - 1];
      CannonRaySound(g, row + d.0, col + d.1, d.0, d.1, color, false);
    }
  }

  lemma LeapsSound(kind: Leaper, g: Grid, row: int, col: int, color: int)
    ensures forall s :: s in LeapMoves(kind, g, row, col, color) ==>
      IsInBounds(s.row, s.col) && s != Square(row, col) && CanLand(g, s.row, s.col, color)
  {
    forall s | s in LeapMoves(kind, g, row, col, color)
      ensures IsInBounds(s.row, s.col) && s != Square(row, col) && CanLand(g, s.row, s.col, color)
    {
      LeapTargetSound(kind, g, row, col, color, s);
    }
  }

  lemma LeapTargetSound(kind: Leaper, g: Grid, row: int, col: int, color: int, s: Square)
    requires s in LeapMoves(kind, g, row, col, color)
    ensures IsInBounds(s.row, s.col) && s != Square(row, col) && CanLand(g, s.row, s.col, color)
  {
    var ls := Leaps(kind);
    LeapMovesUpToExact(kind, g, row, col, color, |ls|);
    var i :| 0 <= i < |ls| && s == LeapTarget(row, col, ls[i]) && Keeps(kind, g, row, col, color, ls[i]);
    KeptLeapSound(kind, g, row, col, color, ls[i]);
  }

  /** Every table offset moves the piece somewhere. */
  lemma LeapsMove(kind: Leaper)
    ensures forall l :: l in Leaps(kind) ==> l.dr != 0 || l.dc != 0
  {
    match kind
    case Knight =>
    case Elephant =>
    case Advisor =>
    case General =>
  }

  /** One offset that passes its checks leads to a board square other than the source that the mover may land on. */
  lemma KeptLeapSound(kind: Leaper, g: Grid, row: int, col: int, color: int, l: Leap)
    requires l in Leaps(kind) && Keeps(kind, g, row, col, color, l)
    ensures IsInBounds(row + l.dr, col + l.dc) && LeapTarget(row, col, l) != Square(row, col)
    ensures CanLand(g, row + l.dr, col + l.dc, color)
  {
    LeapsMove(kind);
    if kind == Advisor || kind == General {
      PalaceInsideBoard(row + l.dr, col + l.dc, color);
    }
  }

  /**
   * Every pseudo-legal target is a board square other than the source that
   * is empty or holds a piece of another colour than the mover's.
   */
  lemma PseudoMovesSound(g: Grid, row: int, col: int, piece: char)
    ensures forall s :: s in PseudoMoves(g, row, col, piece) ==>
      IsInBounds(s.row, s.col) && s != Square(row, col) && CanLand(g, s.row, s.col, GetPieceColor(piece))
  {
    var color := GetPieceColor(piece);
    var t := Upper(piece);
    var moves := PseudoMoves(g, row, col, piece);
    if t == 'R' {
      RookMovesSound(g, row, col, color, 4);
    } else if t == 'C' {
      CannonMovesSound(g, row, col, color, 4);
    } else if t == 'N' {
      LeapsSound(Knight, g, row, col, color);
    } else if t == 'B' {
      LeapsSound(Elephant, g, row, col, color);
    } else if t == 'A' {
      LeapsSound(Advisor, g, row, col, color);
    } else if t == 'K' {
      LeapsSound(General, g, row, col, color);
    } else if t == 'P' {
      assert moves == PawnMoves(g, row, col, color);
      PawnMovesExact(g, row, col, color);
    } else {
      assert moves == [];
    }
  }
}
