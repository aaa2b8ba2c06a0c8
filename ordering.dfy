/**
 * Move ordering of ai/search_engine.py: the MoveOrderer's killer slots and
 * history table, the MVV-LVA capture score, and order_moves, which scores
 * every move (TT move, then captures, then killers, then history) and
 * sorts the moves by score, highest first, keeping ties in input order.
 */
module Ordering {
  import opened Wrappers
  import opened Constants
  import opened Grids
  import opened Boards

  const MAX_PLY: int := 64
  const HISTORY_LIMIT: int := 8000

  const TT_MOVE_SCORE: int := 1000000
  const CAPTURE_SCORE: int := 100000
  const KILLER_SCORE: int := 90000

  // ----- Killer moves -----

  /** The two killer slots of one ply. */
  datatype KillerSlots = KillerSlots(first: Option<Move>, second: Option<Move>)

  const NO_KILLERS: KillerSlots := KillerSlots(None, None)

  /** Slot 0 takes the move and its old occupant moves to slot 1, unless the move is already in slot 0. */
  function KillerUpdate(slots: KillerSlots, move: Move): KillerSlots
  {
    if slots.first != Some(move) then KillerSlots(Some(move), slots.first) else slots
  }

  /** The killer table after update_killer. */
  function KillersAfter(killers: seq<KillerSlots>, move: Move, ply: int): seq<KillerSlots>
    requires |killers| == MAX_PLY && ply >= 0
  {
    if ply < MAX_PLY then killers[ply := KillerUpdate(killers[ply], move)] else killers
  }

  predicate IsKillerIn(killers: seq<KillerSlots>, move: Move, ply: int)
    requires |killers| == MAX_PLY && ply >= 0
  {
    ply < MAX_PLY && (killers[ply].first == Some(move) || killers[ply].second == Some(move))
  }

  /** A ply's slots never hold the same move twice, and slot 1 is filled only after slot 0. */
  predicate SlotsWellFormed(slots: KillerSlots)
  {
    (slots.second.Some? ==> slots.first.Some?) && (slots.first.Some? ==> slots.first != slots.second)
  }

  predicate KillersWellFormed(killers: seq<KillerSlots>)
  {
    |killers| == MAX_PLY && forall i :: 0 <= i < |killers| ==> SlotsWellFormed(killers[i])
  }

  /**
   * update_killer: below ply 64 the move becomes a killer of that ply, the
   * old slot 0 moves to slot 1 unless the move already was slot 0, and no
   * other ply changes; from ply 64 on nothing changes.
   */
  lemma UpdateKillerEffect(killers: seq<KillerSlots>, move: Move, ply: int)
    requires KillersWellFormed(killers) && ply >= 0
    ensures var after := KillersAfter(killers, move, ply);
            KillersWellFormed(after)
            && (IsKillerIn(after, move, ply) <==> ply < MAX_PLY)
            && (ply < MAX_PLY && killers[ply].first != Some(move) ==> after[ply] == KillerSlots(Some(move), killers[ply].first))
            && (ply >= MAX_PLY || killers[ply].first == Some(move) ==> after == killers)
            && (forall i :: 0 <= i < MAX_PLY && i != ply ==> after[i] == killers[i])
  {
  }

  // ----- History heuristic -----

  function Clamp(x: int): int
  {
    if x > HISTORY_LIMIT then HISTORY_LIMIT else if x < -HISTORY_LIMIT then -HISTORY_LIMIT else x
  }

  /** One row of ninety history scores, all within the cap. */
  predicate HistoryRowValid(row: seq<int>)
  {
    |row| == 90 && forall i :: 0 <= i < 90 ==> -HISTORY_LIMIT <= row[i] <= HISTORY_LIMIT
  }

  predicate HistoryValid(history: map<char, seq<int>>)
  {
    history.Keys == ALL_PIECES && forall p :: p in history ==> HistoryRowValid(history[p])
  }

  /** [0] * 90. */
  function ZeroRow(): (row: seq<int>)
    ensures |row| == 90 && forall i :: 0 <= i < 90 ==> row[i] == 0
  {
    seq(90, _ => 0)
  }

  /** The table __post_init__ and clear set up: a row of ninety zeros per piece. */
  function ZeroHistory(): (h: map<char, seq<int>>)
    ensures HistoryValid(h)
  {
    map p | p in ALL_PIECES :: ZeroRow()
  }

  /** A board square's index in a history row. */
  lemma FlatBounds(row: int, col: int)
    requires IsInBounds(row, col)
    ensures 0 <= Flat(row, col) < 90
  {
  }

  /** The entry after += depth^2 (a good move) or -= depth^2, before the clamp. */
  function Bumped(entry: int, depth: int, isGood: bool): int
  {
    if isGood then entry + depth * depth else entry - depth * depth
  }

  /** The history table after update_history: +-depth^2 on (moving piece, target square), then clamped. */
  function HistoryAfter(history: map<char, seq<int>>, g: Grid, move: Move, depth: int, isGood: bool): map<char, seq<int>>
    requires HistoryValid(history) && WellFormed(g) && IsInBounds(move.to.row, move.to.col)
  {
    var piece := GetPiece(g, move.from.row, move.from.col);
    if piece.None? then history
    else
      FlatBounds(move.to.row, move.to.col);
      var p := piece.value;
      var toSq := Flat(move.to.row, move.to.col);
      history[p := history[p][toSq := Clamp(Bumped(history[p][toSq], depth, isGood))]]
  }

  /** update_history keeps every entry within +-8000 and changes nothing when the source square is empty. */
  lemma UpdateHistoryValid(history: map<char, seq<int>>, g: Grid, move: Move, depth: int, isGood: bool)
    requires HistoryValid(history) && WellFormed(g) && IsInBounds(move.to.row, move.to.col)
    ensures HistoryValid(HistoryAfter(history, g, move, depth, isGood))
    ensures GetPiece(g, move.from.row, move.from.col).None? ==> HistoryAfter(history, g, move, depth, isGood) == history
  {
  }

  /**
   * update_history touches only the entry of the moving piece and the
   * target square, which moves by depth^2 before the clamp: never down
   * for a good move and never up otherwise.
   */
  lemma UpdateHistoryEntries(history: map<char, seq<int>>, g: Grid, move: Move, depth: int, isGood: bool)
    requires HistoryValid(history) && WellFormed(g) && IsInBounds(move.to.row, move.to.col)
    requires GetPiece(g, move.from.row, move.from.col).Some?
    ensures var after := HistoryAfter(history, g, move, depth, isGood);
            var p := GetPiece(g, move.from.row, move.from.col).value;
            var toSq := Flat(move.to.row, move.to.col);
            after.Keys == history.Keys
            && (forall q, i :: q in history && 0 <= i < 90 && (q != p || i != toSq) ==> after[q][i] == history[q][i])
            && 0 <= toSq < 90
            && after[p][toSq] == Clamp(Bumped(history[p][toSq], depth, isGood))
            && (isGood ==> after[p][toSq] >= history[p][toSq])
            && (!isGood ==> after[p][toSq] <= history[p][toSq])
  {
    FlatBounds(move.to.row, move.to.col);
  }

  /** get_history_score: the entry of the moving piece and the target square, 0 when the source is empty. */
  function HistoryScore(history: map<char, seq<int>>, g: Grid, move: Move): (s: int)
    requires HistoryValid(history) && WellFormed(g) && IsInBounds(move.to.row, move.to.col)
    ensures -HISTORY_LIMIT <= s <= HISTORY_LIMIT
    ensures GetPiece(g, move.from.row, move.from.col).None? ==> s == 0
  {
    var piece := GetPiece(g, move.from.row, move.from.col);
    FlatBounds(move.to.row, move.to.col);
    if piece.Some? then history[piece.value][Flat(move.to.row, move.to.col)] else 0
  }

  // ----- Scores -----

  /** PIECE_VALUES.get(cell, 0). */
  function ValueOf(cell: Cell): int
  {
    if cell.Some? && cell.value in PIECE_VALUES then PIECE_VALUES[cell.value] else 0
  }

  /** Every cell is worth 0..10000, and a piece at least a pawn's 100. */
  lemma CellValueRange(cell: Cell)
    ensures 0 <= ValueOf(cell) <= 10000
    ensures cell.Some? && cell.value in ALL_PIECES ==> ValueOf(cell) >= 100
  {
  }

  /**
   * mvv_lva_score: ten times the victim's value less the attacker's; 0 when
   * the target is empty. On a well-formed board a capture scores between
   * -9000 (a king takes a pawn) and 100000 (an empty source takes a king).
   */
  function MvvLva(g: Grid, move: Move): (s: int)
    requires WellFormed(g)
    ensures GetPiece(g, move.to.row, move.to.col).None? ==> s == 0
    ensures GetPiece(g, move.to.row, move.to.col).Some? ==> -9000 <= s <= 100000
  {
    var attacker := GetPiece(g, move.from.row, move.from.col);
    var victim := GetPiece(g, move.to.row, move.to.col);
    if victim.None? then 0
    else
      CellValueRange(victim);
      CellValueRange(attacker);
      10 * ValueOf(victim) - ValueOf(attacker)
  }

  /** The score order_moves gives one move. */
  function ScoreMove(g: Grid, killers: seq<KillerSlots>, history: map<char, seq<int>>,
                     move: Move, ttMove: Option<Move>, ply: int): int
    requires WellFormed(g) && |killers| == MAX_PLY && HistoryValid(history) && ply >= 0
    requires IsInBounds(move.to.row, move.to.col)
  {
    if ttMove == Some(move) then TT_MOVE_SCORE
    else if GetPiece(g, move.to.row, move.to.col).Some? then CAPTURE_SCORE + MvvLva(g, move)
    else if IsKillerIn(killers, move, ply) then KILLER_SCORE
    else HistoryScore(history, g, move)
  }

  /** The ordering class of a move: 3 the TT move, 2 a capture, 1 a killer, 0 any other. */
  function Tier(g: Grid, killers: seq<KillerSlots>, move: Move, ttMove: Option<Move>, ply: int): int
    requires |killers| == MAX_PLY && ply >= 0
  {
    if ttMove == Some(move) then 3
    else if GetPiece(g, move.to.row, move.to.col).Some? then 2
    else if IsKillerIn(killers, move, ply) then 1
    else 0
  }

  /**
   * The score bands: the TT move scores 1000000, a capture 91000..200000,
   * a killer 90000, any other move its history score within +-8000; so a
   * higher tier always scores strictly more.
   */
  lemma ScoreBands(g: Grid, killers: seq<KillerSlots>, history: map<char, seq<int>>,
                   move: Move, ttMove: Option<Move>, ply: int)
    requires WellFormed(g) && |killers| == MAX_PLY && HistoryValid(history) && ply >= 0
    requires IsInBounds(move.to.row, move.to.col)
    ensures var s := ScoreMove(g, killers, history, move, ttMove, ply);
            match Tier(g, killers, move, ttMove, ply)
            case 3 => s == TT_MOVE_SCORE
            case 2 => 91000 <= s <= 200000
            case 1 => s == KILLER_SCORE
            case _ => -HISTORY_LIMIT <= s <= HISTORY_LIMIT
  {
  }

  lemma HigherTierScoresMore(g: Grid, killers: seq<KillerSlots>, history: map<char, seq<int>>,
                             a: Move, b: Move, ttMove: Option<Move>, ply: int)
    requires WellFormed(g) && |killers| == MAX_PLY && HistoryValid(history) && ply >= 0
    requires IsInBounds(a.to.row, a.to.col) && IsInBounds(b.to.row, b.to.col)
    requires Tier(g, killers, a, ttMove, ply) > Tier(g, killers, b, ttMove, ply)
    ensures ScoreMove(g, killers, history, a, ttMove, ply) > ScoreMove(g, killers, history, b, ttMove, ply)
  {
    ScoreBands(g, killers, history, a, ttMove, ply);
    ScoreBands(g, killers, history, b, ttMove, ply);
  }

  // ----- The stable sort, highest score first -----

  datatype Scored = Scored(score: int, move: Move)

  /** Insert x after every leading entry scoring at least as much (so after its equals). */
  function Insert(x: Scored, ys: seq<Scored>): seq<Scored>
  {
    if ys == [] then [x]
    else if ys[0].score >= x.score then [ys[0]] + Insert(x, ys[1..])
    else [x] + ys
  }

  /** Insertion sort in input order: Python's stable sort with reverse=True. */
  function SortDesc(xs: seq<Scored>): seq<Scored>
  {
    if xs == [] then [] else Insert(xs[|xs| - 1], SortDesc(xs[..|xs| - 1]))
  }

  predicate SortedDesc(ys: seq<Scored>)
  {
    forall i, j :: 0 <= i < j < |ys| ==> ys[i].score >= ys[j].score
  }

  /** The entries of one score, in order. */
  function WithScore(xs: seq<Scored>, s: int): seq<Scored>
  {
    if xs == [] then []
    else (if xs[0].score == s then [xs[0]] else []) + WithScore(xs[1..], s)
  }

  lemma {:induction false} InsertPerm(x: Scored, ys: seq<Scored>)
    ensures multiset(Insert(x, ys)) == multiset(ys) + multiset{x}
    decreases |ys|
  {
    if ys != [] && ys[0].score >= x.score {
      InsertPerm(x, ys[1..]);
      assert ys == [ys[0]] + ys[1..];
    }
  }

  lemma {:induction false} InsertBelow(x: Scored, ys: seq<Scored>, b: int)
    requires x.score <= b
    requires forall k :: 0 <= k < |ys| ==> ys[k].score <= b
    ensures forall k :: 0 <= k < |Insert(x, ys)| ==> Insert(x, ys)[k].score <= b
    decreases |ys|
  {
    if ys != [] && ys[0].score >= x.score {
      InsertBelow(x, ys[1..], b);
    }
  }

  lemma ConsSorted(h: Scored, t: seq<Scored>)
    requires SortedDesc(t)
    requires forall k :: 0 <= k < |t| ==> t[k].score <= h.score
    ensures SortedDesc([h] + t)
  {
  }

  lemma {:induction false} InsertSorted(x: Scored, ys: seq<Scored>)
    requires SortedDesc(ys)
    ensures SortedDesc(Insert(x, ys))
    decreases |ys|
  {
    if ys == [] {
    } else if ys[0].score >= x.score {
      InsertSorted(x, ys[1..]);
      InsertBelow(x, ys[1..], ys[0].score);
      ConsSorted(ys[0], Insert(x, ys[1..]));
    } else {
      ConsSorted(x, ys);
    }
  }

  /** SortDesc sorts, highest score first, and permutes. */
  lemma {:induction false} SortDescSortedPerm(xs: seq<Scored>)
    ensures SortedDesc(SortDesc(xs))
    ensures multiset(SortDesc(xs)) == multiset(xs)
  {
    if xs != [] {
      var init := xs[..|xs| - 1];
      SortDescSortedPerm(init);
      InsertPerm(xs[|xs| - 1], SortDesc(init));
      InsertSorted(xs[|xs| - 1], SortDesc(init));
      assert xs == init + [xs[|xs| - 1]];
    }
  }

  lemma {:induction false} WithScoreAppend(a: seq<Scored>, b: seq<Scored>, s: int)
    ensures WithScore(a + b, s) == WithScore(a, s) + WithScore(b, s)
    decreases |a|
  {
    if a == [] {
      assert a + b == b;
    } else {
      WithScoreAppend(a[1..], b, s);
      assert (a + b)[1..] == a[1..] + b;
    }
  }

  /** A score above every entry selects nothing. */
  lemma {:induction false} WithScoreAbove(ys: seq<Scored>, s: int)
    requires forall k :: 0 <= k < |ys| ==> ys[k].score < s
    ensures WithScore(ys, s) == []
    decreases |ys|
  {
    if ys != [] {
      WithScoreAbove(ys[1..], s);
    }
  }

  /** The tail of a sorted list is sorted, and its head scores at least as much as any entry. */
  lemma SortedTail(ys: seq<Scored>)
    requires SortedDesc(ys) && ys != []
    ensures SortedDesc(ys[1..])
    ensures forall k :: 0 <= k < |ys| ==> ys[k].score <= ys[0].score
  {
  }

  /** Inserting into a sorted list puts x after every entry of its own score. */
  lemma {:induction false} WithScoreInsert(x: Scored, ys: seq<Scored>, s: int)
    requires SortedDesc(ys)
    ensures WithScore(Insert(x, ys), s) == WithScore(ys, s) + (if x.score == s then [x] else [])
    decreases |ys|
  {
    if ys == [] {
      assert [x][1..] == [];
    } else if ys[0].score >= x.score {
      SortedTail(ys);
      WithScoreInsert(x, ys[1..], s);
      assert ([ys[0]] + Insert(x, ys[1..]))[1..] == Insert(x, ys[1..]);
    } else {
      assert ([x] + ys)[1..] == ys;
      if x.score == s {
        SortedTail(ys);
        WithScoreAbove(ys, s);
      }
    }
  }

  /** Stability: for every score, the entries with that score come out in input order. */
  lemma {:induction false} SortDescStable(xs: seq<Scored>, s: int)
    ensures WithScore(SortDesc(xs), s) == WithScore(xs, s)
  {
    if xs != [] {
      var init := xs[..|xs| - 1];
      var last := xs[|xs| - 1];
      SortDescStable(init, s);
      SortDescSortedPerm(init);
      WithScoreInsert(last, SortDesc(init), s);
      WithScoreAppend(init, [last], s);
      assert xs == init + [last];
      assert [last][1..] == [];
    }
  }

  // ----- order_moves -----

  predicate MovesInBounds(moves: seq<Move>)
  {
    forall i :: 0 <= i < |moves| ==> IsInBounds(moves[i].to.row, moves[i].to.col)
  }

  /** The (score, move) list order_moves builds. */
  function ScoredMoves(g: Grid, killers: seq<KillerSlots>, history: map<char, seq<int>>,
                       moves: seq<Move>, ttMove: Option<Move>, ply: int): (xs: seq<Scored>)
    requires WellFormed(g) && |killers| == MAX_PLY && HistoryValid(history) && ply >= 0
    requires MovesInBounds(moves)
    ensures |xs| == |moves|
    ensures forall i :: 0 <= i < |moves| ==> xs[i] == Scored(ScoreMove(g, killers, history, moves[i], ttMove, ply), moves[i])
  {
    seq(|moves|, i requires 0 <= i < |moves| => Scored(ScoreMove(g, killers, history, moves[i], ttMove, ply), moves[i]))
  }

  function MovesOf(xs: seq<Scored>): (ms: seq<Move>)
    ensures |ms| == |xs| && forall i :: 0 <= i < |xs| ==> ms[i] == xs[i].move
  {
    seq(|xs|, i requires 0 <= i < |xs| => xs[i].move)
  }

  /** What order_moves returns. */
  function OrderedMoves(g: Grid, killers: seq<KillerSlots>, history: map<char, seq<int>>,
                        moves: seq<Move>, ttMove: Option<Move>, ply: int): seq<Move>
    requires WellFormed(g) && |killers| == MAX_PLY && HistoryValid(history) && ply >= 0
    requires MovesInBounds(moves)
  {
    MovesOf(SortDesc(ScoredMoves(g, killers, history, moves, ttMove, ply)))
  }

  lemma {:induction false} MovesOfInsert(x: Scored, ys: seq<Scored>)
    ensures multiset(MovesOf(Insert(x, ys))) == multiset(MovesOf(ys)) + multiset{x.move}
    decreases |ys|
  {
    if ys == [] {
      assert MovesOf([x]) == [x.move];
    } else if ys[0].score >= x.score {
      MovesOfInsert(x, ys[1..]);
      var rest := Insert(x, ys[1..]);
      assert MovesOf([ys[0]] + rest) == [ys[0].move] + MovesOf(rest);
      assert MovesOf(ys) == [ys[0].move] + MovesOf(ys[1..]);
    } else {
      assert MovesOf([x] + ys) == [x.move] + MovesOf(ys);
    }
  }

  lemma {:induction false} MovesOfSortPerm(xs: seq<Scored>)
    ensures multiset(MovesOf(SortDesc(xs))) == multiset(MovesOf(xs))
  {
    if xs != [] {
      var init := xs[..|xs| - 1];
      MovesOfSortPerm(init);
      MovesOfInsert(xs[|xs| - 1], SortDesc(init));
      assert MovesOf(xs) == MovesOf(init) + [xs[|xs| - 1].move];
    }
  }

  /** order_moves returns a permutation of its input. */
  lemma OrderedIsPermutation(g: Grid, killers: seq<KillerSlots>, history: map<char, seq<int>>,
                             moves: seq<Move>, ttMove: Option<Move>, ply: int)
    requires WellFormed(g) && |killers| == MAX_PLY && HistoryValid(history) && ply >= 0
    requires MovesInBounds(moves)
    ensures multiset(OrderedMoves(g, killers, history, moves, ttMove, ply)) == multiset(moves)
  {
    var xs := ScoredMoves(g, killers, history, moves, ttMove, ply);
    MovesOfSortPerm(xs);
    assert MovesOf(xs) == moves;
  }

  /**
   * The ordered moves fall into their tiers (the TT move, captures,
   * killers, the rest) from first to last, and within a score keep their
   * input order.
   */
  lemma OrderedByTier(g: Grid, killers: seq<KillerSlots>, history: map<char, seq<int>>,
                      moves: seq<Move>, ttMove: Option<Move>, ply: int)
    requires WellFormed(g) && |killers| == MAX_PLY && HistoryValid(history) && ply >= 0
    requires MovesInBounds(moves)
    ensures var ordered := OrderedMoves(g, killers, history, moves, ttMove, ply);
            forall i, j :: 0 <= i < j < |ordered| ==>
              Tier(g, killers, ordered[i], ttMove, ply) >= Tier(g, killers, ordered[j], ttMove, ply)
    ensures var sorted := SortDesc(ScoredMoves(g, killers, history, moves, ttMove, ply));
            forall s :: WithScore(sorted, s) == WithScore(ScoredMoves(g, killers, history, moves, ttMove, ply), s)
  {
    var xs := ScoredMoves(g, killers, history, moves, ttMove, ply);
    var sorted := SortDesc(xs);
    SortDescSortedPerm(xs);
    var ordered := MovesOf(sorted);
    forall i, j | 0 <= i < j < |ordered|
      ensures Tier(g, killers, ordered[i], ttMove, ply) >= Tier(g, killers, ordered[j], ttMove, ply)
    {
      ScoredEntry(g, killers, history, moves, ttMove, ply, sorted[i]);
      ScoredEntry(g, killers, history, moves, ttMove, ply, sorted[j]);
      if Tier(g, killers, ordered[i], ttMove, ply) < Tier(g, killers, ordered[j], ttMove, ply) {
        HigherTierScoresMore(g, killers, history, ordered[j], ordered[i], ttMove, ply);
      }
    }
    forall s
      ensures WithScore(sorted, s) == WithScore(xs, s)
    {
      SortDescStable(xs, s);
    }
  }

  /** Every sorted entry is one of the scored input moves, with its score. */
  lemma ScoredEntry(g: Grid, killers: seq<KillerSlots>, history: map<char, seq<int>>,
                    moves: seq<Move>, ttMove: Option<Move>, ply: int, e: Scored)
    requires WellFormed(g) && |killers| == MAX_PLY && HistoryValid(history) && ply >= 0
    requires MovesInBounds(moves)
    requires e in multiset(SortDesc(ScoredMoves(g, killers, history, moves, ttMove, ply)))
    ensures e.move in moves && IsInBounds(e.move.to.row, e.move.to.col)
    ensures e.score == ScoreMove(g, killers, history, e.move, ttMove, ply)
  {
    var xs := ScoredMoves(g, killers, history, moves, ttMove, ply);
    SortDescSortedPerm(xs);
    assert e in xs;
  }

  /** A TT move among the input comes out first. */
  lemma TTMoveFirst(g: Grid, killers: seq<KillerSlots>, history: map<char, seq<int>>,
                    moves: seq<Move>, ttMove: Option<Move>, ply: int)
    requires WellFormed(g) && |killers| == MAX_PLY && HistoryValid(history) && ply >= 0
    requires MovesInBounds(moves)
    requires ttMove.Some? && ttMove.value in moves
    ensures var ordered := OrderedMoves(g, killers, history, moves, ttMove, ply);
            ordered != [] && ordered[0] == ttMove.value
  {
    var xs := ScoredMoves(g, killers, history, moves, ttMove, ply);
    var sorted := SortDesc(xs);
    SortDescSortedPerm(xs);
    var k :| 0 <= k < |moves| && moves[k] == ttMove.value;
    assert xs[k] == Scored(TT_MOVE_SCORE, ttMove.value);
    assert xs[k] in multiset(sorted);
    var j :| 0 <= j < |sorted| && sorted[j] == xs[k];
    assert sorted[0].score >= TT_MOVE_SCORE;
    ScoredEntry(g, killers, history, moves, ttMove, ply, sorted[0]);
    ScoreBands(g, killers, history, sorted[0].move, ttMove, ply);
  }

  class MoveOrderer {
    var killers: seq<KillerSlots>
    var history: map<char, seq<int>>
    /** Counter moves: cleared by clear, never read or written by the search. */
    var counterMoves: map<Move, Move>

    ghost predicate Valid()
      reads this
    {
      KillersWellFormed(killers) && HistoryValid(history)
    }

    /** __post_init__: empty killer slots for 64 plies, a zero history row per piece. */
    constructor ()
      ensures Valid()
      ensures killers == seq(MAX_PLY, _ => NO_KILLERS) && history == ZeroHistory() && counterMoves == map[]
    {
      killers := seq(MAX_PLY, _ => NO_KILLERS);
      history := ZeroHistory();
      counterMoves := map[];
    }

    /** clear: empty killers, every existing history row zeroed, no counter moves. */
    method Clear()
      requires Valid()
      modifies this
      ensures Valid()
      ensures killers == seq(MAX_PLY, _ => NO_KILLERS) && history == ZeroHistory() && counterMoves == map[]
    {
      killers := seq(MAX_PLY, _ => NO_KILLERS);
      history := map p | p in history :: ZeroRow();
      counterMoves := map[];
    }

    /** update_killer. */
    method UpdateKiller(move: Move, ply: int)
      requires Valid() && ply >= 0
      modifies this
      ensures Valid()
      ensures killers == KillersAfter(old(killers), move, ply)
      ensures IsKiller(move, ply) <==> ply < MAX_PLY
      ensures history == old(history) && counterMoves == old(counterMoves)
    {
      UpdateKillerEffect(killers, move, ply);
      if ply < MAX_PLY {
        if killers[ply].first != Some(move) {
          killers := killers[ply := KillerSlots(Some(move), killers[ply].first)];
        }
      }
    }

    /** update_history. */
    method UpdateHistory(board: Board, move: Move, depth: int, isGood: bool)
      requires Valid() && WellFormed(board.grid) && IsInBounds(move.to.row, move.to.col)
      modifies this
      ensures Valid()
      ensures history == HistoryAfter(old(history), board.grid, move, depth, isGood)
      ensures killers == old(killers) && counterMoves == old(counterMoves)
    {
      UpdateHistoryValid(history, board.grid, move, depth, isGood);
      var piece := board.GetPiece(move.from.row, move.from.col);
      if piece.Some? {
        var p := piece.value;
        FlatBounds(move.to.row, move.to.col);
        var toSq := move.to.row * BOARD_COLS + move.to.col;
        var bonus := depth * depth;
        var entry := history[p][toSq];
        if isGood {
          entry := entry + bonus;
        } else {
          entry := entry - bonus;
        }
        history := history[p := history[p][toSq := Clamp(entry)]];
      }
    }

    /** get_history_score. */
    function GetHistoryScore(board: Board, move: Move): (s: int)
      reads this, board
      requires Valid() && WellFormed(board.grid) && IsInBounds(move.to.row, move.to.col)
      ensures -HISTORY_LIMIT <= s <= HISTORY_LIMIT
      ensures GetPiece(board.grid, move.from.row, move.from.col).None? ==> s == 0
    {
      HistoryScore(history, board.grid, move)
    }

    /** is_killer: never from ply 64 on. */
    function IsKiller(move: Move, ply: int): (r: bool)
      reads this
      requires Valid() && ply >= 0
      ensures ply >= MAX_PLY ==> !r
      ensures ply < MAX_PLY ==> (r <==> killers[ply].first == Some(move) || killers[ply].second == Some(move))
    {
      IsKillerIn(killers, move, ply)
    }
  }

  /** mvv_lva_score on a board. */
  function MvvLvaScore(board: Board, move: Move): (s: int)
    reads board
    requires WellFormed(board.grid)
    ensures board.GetPiece(move.to.row, move.to.col).None? ==> s == 0
    ensures board.GetPiece(move.to.row, move.to.col).Some? ==> -9000 <= s <= 100000
  {
    MvvLva(board.grid, move)
  }

  /**
   * order_moves: score each move, sort by score (highest first, stable),
   * and keep the moves.
   */
  method OrderMoves(board: Board, moves: seq<Move>, ttMove: Option<Move>, orderer: MoveOrderer, ply: int)
    returns (ordered: seq<Move>)
    requires orderer.Valid() && WellFormed(board.grid) && ply >= 0 && MovesInBounds(moves)
    ensures ordered == OrderedMoves(board.grid, orderer.killers, orderer.history, moves, ttMove, ply)
    ensures multiset(ordered) == multiset(moves)
    ensures ttMove.Some? && ttMove.value in moves ==> ordered[0] == ttMove.value
  {
    ghost var xs := ScoredMoves(board.grid, orderer.killers, orderer.history, moves, ttMove, ply);
    var scoredMoves: seq<Scored> := [];
    for i := 0 to |moves|
      invariant scoredMoves == xs[..i]
    {
      var score := ScoreOf(board, moves[i], ttMove, orderer, ply);
      scoredMoves := scoredMoves + [Scored(score, moves[i])];
    }
    assert xs[..|moves|] == xs;
    var sorted := SortScored(scoredMoves);
    ordered := MovesFrom(sorted);
    OrderedIsPermutation(board.grid, orderer.killers, orderer.history, moves, ttMove, ply);
    if ttMove.Some? && ttMove.value in moves {
      TTMoveFirst(board.grid, orderer.killers, orderer.history, moves, ttMove, ply);
    }
  }

  /** The score of one move in order_moves' loop. */
  method ScoreOf(board: Board, move: Move, ttMove: Option<Move>, orderer: MoveOrderer, ply: int) returns (score: int)
    requires orderer.Valid() && WellFormed(board.grid) && ply >= 0 && IsInBounds(move.to.row, move.to.col)
    ensures score == ScoreMove(board.grid, orderer.killers, orderer.history, move, ttMove, ply)
  {
    score := 0;
    if Some(move) == ttMove {
      score := TT_MOVE_SCORE;
    } else {
      var captured := board.GetPiece(move.to.row, move.to.col);
      if captured.Some? {
        score := CAPTURE_SCORE + MvvLvaScore(board, move);
      } else if orderer.IsKiller(move, ply) {
        score := KILLER_SCORE;
      } else {
        score := orderer.GetHistoryScore(board, move);
      }
    }
  }

  /** [move for _, move in scored_moves]. */
  method MovesFrom(sorted: seq<Scored>) returns (ordered: seq<Move>)
    ensures ordered == MovesOf(sorted)
  {
    ordered := [];
    for i := 0 to |sorted|
      invariant ordered == MovesOf(sorted[..i])
    {
      ordered := ordered + [sorted[i].move];
    }
    assert sorted[..|sorted|] == sorted;
  }

  /** The sort in order_moves: insert each entry after those scoring at least as much. */
  method SortScored(xs: seq<Scored>) returns (sorted: seq<Scored>)
    ensures sorted == SortDesc(xs)
  {
    sorted := [];
    for i := 0 to |xs|
      invariant sorted == SortDesc(xs[..i])
    {
      assert xs[..i + 1][..i] == xs[..i];
      sorted := InsertScored(xs[i], sorted);
    }
    assert xs[..|xs|] == xs;
  }

  /** Find the first entry scoring less than x and put x just before it. */
  method InsertScored(x: Scored, ys: seq<Scored>) returns (zs: seq<Scored>)
    ensures zs == Insert(x, ys)
  {
    var j := 0;
    while j < |ys| && ys[j].score >= x.score
      invariant 0 <= j <= |ys|
      invariant forall k :: 0 <= k < j ==> ys[k].score >= x.score
    {
      j := j + 1;
    }
    InsertAt(x, ys, j);
    zs := ys[..j] + [x] + ys[j..];
  }

  lemma {:induction false} InsertAt(x: Scored, ys: seq<Scored>, j: int)
    requires 0 <= j <= |ys|
    requires forall k :: 0 <= k < j ==> ys[k].score >= x.score
    requires j == |ys| || ys[j].score < x.score
    ensures Insert(x, ys) == ys[..j] + [x] + ys[j..]
    decreases j
  {
    if j > 0 {
      InsertAt(x, ys[1..], j - 1);
      assert ys[1..][..j - 1] == ys[..j][1..];
      assert ys[1..][j - 1..] == ys[j..];
    }
  }
}
