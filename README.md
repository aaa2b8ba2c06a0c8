# Xiangqi engine core in Dafny

This project models the rules and the search of a Python Xiangqi (Chinese
chess) engine, and proves properties of that model:

- the board primitives: piece colours, bounds, palaces and the river
  (`Constants`);
- the board: a 10×9 grid of optional pieces, the side to move, and the FEN
  parser and serialiser (`Grids`, `Text`, `Fen`, and the class
  `Boards.Board`, whose methods update the grid, the side and the history
  stacks in place);
- the rule engine: the per-piece move generators, legality, check, the
  flying-general rule, mate, stalemate and the game result (`MoveGen` and
  `Legality` give the reference functions; the class `Rules.RuleEngine`
  holds the loops, each proved against its function);
- Chinese move notation (`Notation`);
- the classical evaluation (`Evaluation`), and the integer part of the NNUE
  module: the feature encoding and `_classical_evaluate` (`Nnue`);
- the plain alpha-beta search (`Search`): a reference `Minimax` function,
  and the imperative `MinimaxSearch` proved fail-soft against it;
- the search engine's data structures: Zobrist hashing (`Zobrist`), the
  transposition table (`Transposition`), killers, history and move ordering
  (`Ordering`);
- the search engine itself (`Engine`): iterative deepening with aspiration
  windows, principal-variation search with null-move pruning and late-move
  reductions, the transposition-table cutoffs and the quiescence search.

Pieces are characters as in the source (`RNBAKCP` for Red, `rnbakcp` for
Black). Squares are `(row, col)` with row 0 on Red's side. Colours are
`RED == 1` and `BLACK == -1`. Python's unbounded integers become Dafny
`int`. The Zobrist keys are `bv64`, since the source draws 64-bit keys.
`IsInBounds(r, c)` is by definition `0 <= r < 10 && 0 <= c < 9`.

Where the source loops or mutates, the model does too. Each such method is
proved equal to a pure function of its inputs or of the old state, and the
properties are proved as lemmas about that function. Examples:

- `Boards.Board.MovePiece` and `Fen.FenRoundTrip`;
- `Rules.RuleEngine.GetLegalMoves` and `Legality.LegalMovesExact`;
- `Ordering.OrderMoves` and `Ordering.OrderedByTier`.

## Model

| member | source | states |
|---|---|---|
| Constants.GetPieceColor | core/constants.py:107-113 | 1 exactly for the Red letters, -1 exactly for the Black letters, 0 for every other character |
| Constants.PalaceInsideBoard | core/constants.py:115-122 | every palace square is on the board, in columns 3-5 |
| Constants.PalacesDisjoint | core/constants.py:61-64 | no square is in both palaces |
| Constants.ElephantStaysHome | core/constants.py:128-136 | a Red elephant may stand only on rows 0-4, a Black one only on rows 5-9 |
| Constants.OnlyElephantsAreConfined | core/constants.py:128-136 | every character other than an elephant may stand on either side of the river |
| Constants.PieceSetsPartition | core/constants.py:35-37 | the Red and Black pieces are disjoint, and together they are all the pieces |
| Constants.PieceCaseCorrespondence | core/constants.py:35-37 | letter case is a one-to-one correspondence between Red and Black pieces |
| Constants.PieceValueKeys | core/constants.py:42-50 | exactly the fourteen pieces have a value |
| Constants.PieceValuesColourBlind | core/constants.py:42-50 | a piece and its opposite-colour twin have the same value, between 100 and 10000 |
| Constants.ColumnNames | core/constants.py:80-89 | Red's name for column c is the Chinese numeral for 9 - c; Black's is the digit of c + 1 |
| Grids.GetAfterSet | core/board.py:96-105 | after set_piece, get_piece gives the new piece on the named in-bounds square; every other square, and every out-of-bounds write, leaves the grid as it was |
| Grids.MovedGridCells | core/board.py:118-135 | after a move the source is empty, the target holds the source's piece, and every other square is unchanged |
| Grids.SetPreservesWellFormed | core/board.py:102-105 | writing an empty square or a piece keeps every cell empty or a piece |
| Grids.MovePreservesWellFormed | core/board.py:129-130 | a move keeps every cell empty or a piece |
| Grids.AllPiecesExact | core/board.py:179-198 | get_all_pieces lists exactly the squares holding that colour's pieces, in strictly increasing row-major order |
| Grids.FindKingFirst | core/board.py:162-177 | find_king gives the first square in row-major order holding that colour's king, and None exactly when there is none |
| Grids.CaptureShrinksBoard | core/board.py:118-135 | a move onto an occupied square removes exactly one piece; a move onto an empty square keeps the count |
| Text.NatToString | core/board.py:81-87 | str(n) is a non-empty string of decimal digits, a single digit below 10 |
| Text.NatToStringRoundTrip | core/notation.py:134 | reading back the digits of str(n) gives n |
| Text.SplitWs | core/board.py:33 | str.split() gives non-empty words free of whitespace |
| Text.SplitTwoWords | core/board.py:94 | splitting "a b" on whitespace gives back the two words |
| Text.SplitOn | core/board.py:38 | str.split('/') gives at least one piece, none containing the separator |
| Text.SplitJoin | core/board.py:91 | splitting '/'.join(parts) on '/' gives the parts back |
| Fen.ParseRowFrom | core/board.py:47-59 | the column never moves back, and a row fails only once its column reaches 9 |
| Fen.FillRows | core/board.py:46-59 | an overflowing row is reported by its board row, which lies in 0..9 |
| Fen.LoadWellFormed | core/board.py:26-65 | after load_fen every cell is empty or a piece; a load that does not raise sets RED or BLACK to move |
| Fen.RowRoundTrip | core/board.py:47-59 | parsing the text to_fen wrote for a row rebuilds that row |
| Fen.FenWords | core/board.py:91-94 | to_fen's text splits on whitespace into the board field and the side field 'w' or 'b' |
| Fen.BoardFieldSplits | core/board.py:91 | the board field is one whitespace-free word that splits on '/' into its ten rows |
| Fen.LoadRowsRoundTrip | core/board.py:40-65 | the row loop, given the ten rows to_fen wrote, rebuilds the grid and takes the side without raising |
| Fen.LoadFieldsRoundTrip | core/board.py:33-65 | the two fields to_fen writes load back into the grid and the side they came from, without raising |
| Fen.FenRoundTrip | core/board.py:26-94 | load_fen(to_fen()) reproduces the grid and the side of any board whose cells are empty or pieces and whose side is RED or BLACK, whatever the loading board held |
| Boards.ToFenLoadsCleanly | core/board.py:67-94 | a FEN written by to_fen for a well-formed position never makes load_fen raise |
| Boards.LoadIgnoresBoard | core/board.py:26-65 | whether load_fen raises does not depend on the board it loads into, and neither does a clean result |
| Boards.RowStateEncodes | core/board.py:72-89 | what to_fen's column loop has written, followed by the encoding of the rest of the row, is the row's whole encoding |
| Boards.Board.constructor | core/board.py:12-24 | an empty grid, Red to move, empty history stacks |
| Boards.Board.Create | core/board.py:12-24 | Board(fen) gives the loaded position with empty stacks, and fails exactly when load_fen raises, with that error |
| Boards.Board.LoadFen | core/board.py:26-65 | the new grid, side and raised error are those of the pure `Fen.Load`; the stacks are untouched |
| Boards.Board.FillAllRows | core/board.py:43-59 | the row loop clears the grid and fills board row 9 - i from FEN row i, as `Fen.FillRows` does |
| Boards.Board.FillRow | core/board.py:49-59 | the character loop writes one board row as `Fen.ParseRowFrom` does |
| Boards.Board.ToFen | core/board.py:67-94 | to_fen gives the text of the pure `Fen.ToFen` for the current grid and side |
| Boards.Board.EncodeGridRow | core/board.py:73-87 | the column loop gives the run-length encoding of the row |
| Boards.Board.SetPiece | core/board.py:102-105 | the grid becomes `Grids.SetPiece` of the old grid; the side and the stacks are unchanged |
| Boards.Board.MovePiece | core/board.py:107-135 | the old FEN and the move are pushed, the grid becomes the moved grid, the side is negated, and the old target content is returned |
| Boards.Board.UndoMove | core/board.py:137-152 | on an empty history it returns False and changes nothing; otherwise it pops both stacks and the position is the popped FEN loaded without error |
| Boards.Board.MoveThenUndo | core/board.py:107-152 | move_piece followed by undo_move restores the grid, the side to move and both stacks |
| Boards.Board.Copy | core/board.py:154-160 | a fresh board with the same grid, side and stacks |
| Boards.Board.FindKing | core/board.py:162-177 | the nested loop gives `Grids.FindKing` of the grid |
| Boards.Board.FindKingInRow | core/board.py:173-176 | the column loop gives the first king of the row, or moves the search past the row |
| Boards.Board.GetAllPieces | core/board.py:179-198 | the nested loop gives `Grids.AllPieces` of the grid |
| Boards.Board.CollectRow | core/board.py:193-196 | the column loop appends the row's pieces of the colour |
| MoveGen.RookRayIsRunThenCapture | core/rules.py:70-82 | a rook ray is the run of empty squares, followed by the first piece met only when it is an enemy |
| MoveGen.CannonRayJumpsOneScreen | core/rules.py:205-227 | a cannon ray is the run of empty squares up to the first piece (the screen), followed by the first piece beyond the screen only when it is an enemy |
| MoveGen.CannonAfterScreen | core/rules.py:216-224 | once the screen is jumped, the ray yields only the next piece, and only when it is an enemy |
| MoveGen.CannonRayStep | core/rules.py:209-227 | one square of the cannon loop, in each of its four cases |
| MoveGen.RookRaySound | core/rules.py:70-82 | every square of a rook ray is on the board, ahead of the rook, and empty or an enemy |
| MoveGen.CannonRaySound | core/rules.py:205-227 | every square of a cannon ray is on the board, ahead of the cannon, and empty or an enemy |
| MoveGen.LeapsDistinct | core/rules.py:86-196 | no two offsets of one piece's table lead to the same square |
| MoveGen.LeapMovesExact | core/rules.py:102-117 | a knight, elephant, advisor or king target is present exactly when its offset passes the piece's checks (bounds, leg or eye empty, river, palace, not an own piece) |
| MoveGen.PalacePiecesStayHome | core/rules.py:156-196 | advisor and king targets always lie in the mover's own palace |
| MoveGen.ElephantsStayHome | core/rules.py:133-152 | elephant targets are diagonal two-steps on the mover's side of the river whose eye square is empty |
| MoveGen.PawnMovesExact | core/rules.py:231-259 | a pawn's targets are exactly the forward square (+1 row for Red, -1 for Black) and, once across the river, the two squares beside it, each on the board and not holding an own piece |
| MoveGen.PseudoMovesSound | core/rules.py:41-61 | every pseudo-legal target is a board square other than the source, empty or holding a piece of another colour |
| Legality.AttackedIffHit | core/rules.py:315-324 | a square is attacked exactly when the scan over the enemies' pseudo-legal target lists meets it |
| Legality.LegalMovesExact | core/rules.py:16-39 | get_legal_moves gives nothing for an empty square; otherwise its targets are exactly the pseudo-legal targets whose move is legal |
| Legality.LegalMoveIsSafe | core/rules.py:261-298 | every move generated for a colour starts on a piece and leaves that colour out of check and the two kings not facing each other |
| Legality.NoLegalMovesIffEmpty | core/rules.py:366-372 | a colour has no legal move exactly when the list of all its moves is empty |
| Legality.AllMovesSound | core/rules.py:16-39 | every generated move starts on a square holding a piece of that colour and is legal there |
| Legality.NoLegalMovesIffNoneMovable | core/rules.py:366-372 | a colour has no legal move exactly when none of its pieces, scanned in order, can move |
| Legality.MateAndStalemateExclusive | core/rules.py:351-395 | no position is both checkmate and stalemate, and a side without legal moves is in one of the two |
| Legality.GameResultExact | core/rules.py:397-416 | the game is over exactly when the side to move has no legal move, and then the opponent wins; the side to move is never named winner |
| Rules.RuleEngine.constructor | core/rules.py:13 | the engine reads the given board |
| Rules.RuleEngine.GetLegalMoves | core/rules.py:16-39 | the filter loop gives `Legality.LegalMovesFrom` |
| Rules.RuleEngine.KeepIfLegal | core/rules.py:35-37 | one turn of the filter loop appends the target exactly when it is legal |
| Rules.RuleEngine.PseudoLegalMoves | core/rules.py:41-61 | the dispatch on the piece type gives `MoveGen.PseudoMoves` |
| Rules.RuleEngine.RookMoves | core/rules.py:63-84 | the four sliding loops give `MoveGen.RookMoves` |
| Rules.RuleEngine.RookRayScan | core/rules.py:71-82 | one sliding loop gives the rook ray in that direction |
| Rules.RuleEngine.KnightMoves | core/rules.py:86-119 | the offset loop gives the knight's leap targets |
| Rules.RuleEngine.KnightTry | core/rules.py:102-117 | one offset is kept exactly when on the board, with an empty leg, not landing on an own piece |
| Rules.RuleEngine.BishopMoves | core/rules.py:121-154 | the offset loop gives the elephant's leap targets |
| Rules.RuleEngine.BishopTry | core/rules.py:133-152 | one offset is kept exactly when on the board, on the home side, with an empty eye, not landing on an own piece |
| Rules.RuleEngine.AdvisorMoves | core/rules.py:156-175 | the step loop gives the advisor's targets |
| Rules.RuleEngine.KingMoves | core/rules.py:177-196 | the step loop gives the king's targets |
| Rules.RuleEngine.PalaceTry | core/rules.py:163-173 | one step is kept exactly when inside the palace and not landing on an own piece |
| Rules.RuleEngine.CannonMoves | core/rules.py:198-229 | the four loops give `MoveGen.CannonMoves` |
| Rules.RuleEngine.CannonRayScan | core/rules.py:206-227 | one loop with its `jumped` flag gives the cannon ray in that direction |
| Rules.RuleEngine.CannonSquare | core/rules.py:210-224 | one square of that loop, whether it stops the ray or not, keeps the ray equal to the reference |
| Rules.RuleEngine.PawnMoves | core/rules.py:231-259 | the forward step and the sideways loop give `MoveGen.PawnMoves` |
| Rules.RuleEngine.PawnSides | core/rules.py:251-257 | the sideways loop over -1 and +1 |
| Rules.RuleEngine.PawnTarget | core/rules.py:244-248 | one pawn square is kept when on the board and not holding an own piece |
| Rules.RuleEngine.IsLegalMove | core/rules.py:261-298 | playing the move on a copy and asking a second engine gives `Legality.IsLegal` |
| Rules.RuleEngine.IsInCheck | core/rules.py:300-324 | the enemy-piece loop gives `Legality.InCheck`: false without a king, else whether an enemy attacks it |
| Rules.RuleEngine.PieceAttacks | core/rules.py:319-322 | one turn of that loop: whether the king square is among the enemy's targets |
| Rules.RuleEngine.IsFlyingGeneral | core/rules.py:326-349 | the between-rows loop gives `Legality.FlyingGeneral`: both kings on one column with nothing between them |
| Rules.RuleEngine.PieceIsStuck | core/rules.py:367-370 | one turn of the piece loop: whether that piece has no legal move |
| Rules.RuleEngine.AnyLegalMove | core/rules.py:366-372 | the piece loop finds a movable piece exactly when the colour has a legal move |
| Rules.RuleEngine.IsCheckmate | core/rules.py:351-372 | gives `Legality.IsCheckmate`: in check with no legal move |
| Rules.RuleEngine.IsStalemate | core/rules.py:374-395 | gives `Legality.IsStalemate`: not in check with no legal move |
| Rules.RuleEngine.GetGameResult | core/rules.py:397-416 | gives `Legality.GameResult` of the side to move |
| Notation.NumberToChineseSpec | core/notation.py:116-134 | Red's 1..10 are one Chinese numeral; every other number, and every Black number, is decimal digits that read back as the number |
| Notation.RedNumeralsMatchDigits | core/notation.py:127-132 | Red's numerals for 1..9 are the characters of Red's column names |
| Notation.SortRowsSorts | core/notation.py:102 | the sort keeps the rows and orders them descending for Red, ascending for Black |
| Notation.IndexOf | core/notation.py:105 | list.index gives the first position holding the value |
| Notation.SameRowsExact | core/notation.py:92-96 | the collected rows are exactly the rows of the column holding the same piece, increasing |
| Notation.PrefixEmptyIffAlone | core/notation.py:98-99 | no prefix exactly when no other square of the column holds the same piece |
| Notation.PrefixEmptyIffFewRows | core/notation.py:92-99 | no prefix exactly when the column holds at most one such piece |
| Notation.PrefixOfPair | core/notation.py:101-108 | with two identical pieces in a column, the one nearer the enemy is 前 and the other 后 |
| Notation.ComposeShape | core/notation.py:16-77 | "" for an empty source; otherwise two label characters (prefix and name, or name and column), 平 exactly when the column changes, else 进 or 退, then the target column for a sideways move or an advisor or elephant, and the distance otherwise |
| Notation.TailShape | core/notation.py:56-75 | the direction character, then a non-empty target |
| Notation.BlackAdvanceWrittenAsRetreat | core/notation.py:56-65 | as written, a Black piece stepping straight toward Red is written 退 |
| Notation.CorrectedDirectionFollowsMover | core/notation.py:56-65 | in the corrected notation a move along the column reads 进 exactly when it goes toward the opponent, for both colours |
| Notation.NotationGenerator.constructor | core/notation.py:13 | the generator reads the given board |
| Notation.NotationGenerator.GenerateNotation | core/notation.py:16-77 | gives the pure `Notation.Notation` of the move |
| Notation.NotationGenerator.StartNotation | core/notation.py:45-53 | the label: prefix and name, or name and column |
| Notation.NotationGenerator.MoveWords | core/notation.py:56-75 | the direction and target: 进 when the row number grows, 退 otherwise, 平 across columns |
| Notation.NotationGenerator.GetPositionPrefix | core/notation.py:79-114 | the collect, sort and index loop gives the pure `Notation.PositionPrefix` |
| Evaluation.DifficultyDepthsIncrease | ai/evaluation.py:15-21 | the five levels search 1 to 5 plies, one more per level |
| Evaluation.DifficultyDepthsPositive | ai/evaluation.py:15-21 | every level searches between 1 and 5 plies |
| Evaluation.FlipPstSpec | ai/evaluation.py:125-127 | row r of the flipped table is row 9 - r of the original, and flipping twice is the identity |
| Evaluation.TablesShaped | ai/evaluation.py:27-134 | every table, flipped or not, is 10×9 with entries in [-8, 120] |
| Evaluation.GetPositionValue | ai/evaluation.py:137-170 | every position value lies in [-8, 120] |
| Evaluation.PositionValueByColour | ai/evaluation.py:148-170 | Black's pawn, king, advisor and elephant read Red's table upside down; Black's knight, cannon and rook read the same unflipped entry as Red's |
| Evaluation.UntabledScoresZero | ai/evaluation.py:170 | a character with no table scores 0 |
| Evaluation.MaterialSpec | ai/evaluation.py:197-204 | a pawn across the river is worth 200, at home 100; every other piece keeps its value |
| Evaluation.EvaluateBoard | ai/evaluation.py:173-218 | the nested loops give the pure `Evaluation.Evaluate` |
| Evaluation.EvaluateRow | ai/evaluation.py:188-216 | the column loop adds the row's sum |
| Evaluation.EvaluateSquare | ai/evaluation.py:189-216 | the loop body adds the square's score, for or against the perspective |
| Evaluation.EvaluateAntisymmetric | ai/evaluation.py:212-216 | evaluate_board(b, RED) == -evaluate_board(b, BLACK) |
| Evaluation.EmptyBoardIsLevel | ai/evaluation.py:184-191 | a board without pieces evaluates to 0 from either side |
| Evaluation.EvaluateBounded | ai/evaluation.py:173-218 | every evaluation lies in [-910800, 910800], strictly inside the mate scores ±999999 |
| Nnue.SquareIndexRange | ai/nnue.py:72-82 | square_index sends the board into [0, 90), and division and remainder by 9 give back the row and the column |
| Nnue.SquareIndexInjective | ai/nnue.py:72-82 | two squares with one index are one square |
| Nnue.SquareIndexOnto | ai/nnue.py:72-82 | every index in [0, 90) is the index of a board square |
| Nnue.FeatureIndexRange | ai/nnue.py:85-101 | the feature index lies in [0, 1260), below 630 exactly for side 0 |
| Nnue.FeatureIndexInjective | ai/nnue.py:85-101 | distinct (side, type, square) triples have distinct indices |
| Nnue.MirrorSquareSpec | ai/nnue.py:104-118 | the mirror keeps the column, sends row r to 9 - r, and stays in [0, 90) |
| Nnue.MirrorSquareInvolution | ai/nnue.py:104-118 | mirroring twice gives back the square |
| Nnue.PieceTypeIndexKeys | ai/nnue.py:51-59 | the type index is defined on exactly the fourteen pieces |
| Nnue.PieceTypeIndexColourBlind | ai/nnue.py:51-59 | both colours of a piece share its index, in [0, 7), and no other type has it |
| Nnue.ExtractFeatures | ai/nnue.py:400-440 | the nested loops give the pure `Nnue.FeaturesUpTo` over the whole board |
| Nnue.ExtractRow | ai/nnue.py:418-438 | the column loop extends the two lists by one row |
| Nnue.ExtractSquare | ai/nnue.py:419-438 | the loop body files the square's piece under its side |
| Nnue.FeaturesUpToExact | ai/nnue.py:432-438 | own features are exactly the perspective's pieces, opponent features exactly the others |
| Nnue.FeaturesUpToShape | ai/nnue.py:414-440 | the two lists hold one feature per occupied square, own ones in [0, 630) and opponent ones in [630, 1260) |
| Nnue.FeatureOfRange | ai/nnue.py:432-438 | a piece's feature lies in [0, 630) when it is the perspective's own, in [630, 1260) otherwise |
| Nnue.FeatureOfSideNeutral | ai/nnue.py:426-438 | a piece seen from Red has the feature its colour-swapped twin on the mirrored row has when seen from Black |
| Nnue.PstOf | ai/nnue.py:309-398 | each table the evaluator holds is 10×9 |
| Nnue.ClassicalEvaluate | ai/nnue.py:531-581 | the nested loops give the pure `Nnue.ClassicalUpTo` over the whole board |
| Nnue.ClassicalRow | ai/nnue.py:543-579 | the column loop adds the row |
| Nnue.ClassicalSquare | ai/nnue.py:544-579 | the loop body adds or subtracts the square's piece value |
| Nnue.ClassicalValueMirrored | ai/nnue.py:555-570 | a Black piece is worth what its Red twin is worth on the mirrored row: table read upside down, river bonus mirrored |
| Nnue.ClassicalAntisymmetric | ai/nnue.py:531-581 | _classical_evaluate(b, RED) == -_classical_evaluate(b, BLACK) |
| Nnue.ClassicalEmpty | ai/nnue.py:541-549 | a board without pieces scores 0 |
| Search.Minimax | ai/search.py:15-112 | the unpruned value of minimax_search lies in [-999999, 999999] |
| Search.ChildValuesAt | ai/search.py:68-76 | the j-th child value is the value of the child reached by the j-th move |
| Search.MaxOfIsMaximum | ai/search.py:64-87 | a maximizing node's value is at least every child's and equals one of them |
| Search.MinOfIsMinimum | ai/search.py:89-112 | a minimizing node's value is at most every child's and equals one of them |
| Search.FullWindowIsExact | ai/search.py:18-19 | within the default window a fail-soft result is the exact value |
| Search.GameOverIsLoss | ai/search.py:43-48 | a finished game scores -999999: the +999999 branch is never taken |
| Search.LeafIgnoresMaximizing | ai/search.py:39-40 | the leaf is the side to move's evaluation, whatever the maximizing flag |
| Search.DepthOneChildIsOpponentView | ai/search.py:39-40 | as written, at depth 1 a child is scored from the opponent's side, the negation of the mover's evaluation |
| Search.CorrectedDepthOneIsMoverView | ai/search.py:39-40 | in the corrected search, a depth-1 child is scored by the mover's own evaluation |
| Search.CorrectedZeroSum | ai/search.py:15-112 | the corrected search is zero-sum: a position's value for the maximizing player is the negation of its value for the minimizing one |
| Search.CollectMoves | ai/search.py:51-56 | the move loop gives every legal move of the side to move, as `Legality.AllMoves` orders them |
| Search.AppendMoves | ai/search.py:54-56 | the inner loop appends one move per target |
| Search.MinimaxSearch | ai/search.py:15-112 | the caller's board is not changed; within (alpha, beta) the score is fail-soft against `Minimax`; a returned move is legal and its child's value explains the score; no move means a mate score; a returned move means the node is not lost (maximizing) or not won (minimizing); once the score clears the side's own window end, the move is the first of `Legality.AllMoves` whose child beats every child before it |
| Search.MaxStep | ai/search.py:76-85 | one turn of the maximizing loop keeps the loop invariant or meets the exit promise |
| Search.MinStep | ai/search.py:101-110 | one turn of the minimizing loop keeps the loop invariant or meets the exit promise |
| Search.MaxNewBestIsFirst | ai/search.py:76-80 | a child that raises max_eval above alpha scores above every earlier child: those failed low or were exact |
| Search.MinNewBestIsFirst | ai/search.py:101-105 | a child that lowers min_eval below beta scores below every earlier child |
| Search.FirstAboveIsStrict | ai/search.py:78-80 | a child above the best of the children before it is strictly above each of them |
| Search.FirstBelowIsStrict | ai/search.py:103-105 | a child below the best of the children before it is strictly below each of them |
| Search.MaxResult | ai/search.py:64-87 | the maximizing loop's exit promise, read back as fail-soft bounds on the node value and on the chosen child's value, plus the first-best move |
| Search.MinResult | ai/search.py:89-112 | the minimizing loop's exit promise, read back the same way |
| Search.SearchChild | ai/search.py:72-76 | one child, searched on a copy, is fail-soft against its value |
| Search.SearchMax | ai/search.py:64-87 | the maximizing branch is fail-soft against the best child; no move exactly when max_eval stays -999999; its move is a searched one whose value explains the score, and once max_eval is above alpha it is the first move whose child scores above every earlier child (`>` keeps the first of equal scores) |
| Search.SearchMin | ai/search.py:89-112 | the minimizing branch is fail-soft against the worst child; no move exactly when min_eval stays 999999; its move is a searched one whose value explains the score, and once min_eval is below beta it is the first move whose child scores below every earlier child (`<` keeps the first of equal scores) |
| Search.GetBestMove | ai/search.py:115-131 | depth from the level (3 for an unknown one) and the full window: a returned move is legal and its child's value is the root's minimax value, and it is the first move of `Legality.AllMoves` with that value (every earlier child scores less); no move means the root scores -999999 |
| Zobrist.AddCellTwice | ai/search_engine.py:144-145 | adding the same piece on the same square twice cancels out |
| Zobrist.AddCellSwap | ai/search_engine.py:112-124 | keys can be added in either order |
| Zobrist.ZobristHash.constructor | ai/search_engine.py:83-101 | the keys are the ones supplied |
| Zobrist.ZobristHash.HashBoard | ai/search_engine.py:103-124 | the nested loops give the pure `Zobrist.BoardHash`: XOR of the occupied squares' keys, then the side key exactly when Black is to move |
| Zobrist.ZobristHash.HashRow | ai/search_engine.py:115-119 | the column loop extends the hash by one row |
| Zobrist.ZobristHash.HashSquare | ai/search_engine.py:116-119 | the loop body XORs in the key of the square's piece, if any |
| Zobrist.ZobristHash.UpdatePiece | ai/search_engine.py:126-145 | the hash with that piece's key for that square XORed in; XORing the key again gives back the old hash |
| Zobrist.ZobristHash.ToggleSide | ai/search_engine.py:147-156 | the hash with the side key XORed in; XORing the side key again gives back the old hash |
| Zobrist.ZobristHash.UpdatePieceInvolution | ai/search_engine.py:126-145 | update_piece twice with the same piece and square gives back the hash |
| Zobrist.ZobristHash.ToggleSideInvolution | ai/search_engine.py:147-156 | toggle_side twice gives back the hash |
| Zobrist.ZobristHash.PassTurnTogglesSide | ai/search_engine.py:121-122 | two boards differing only in the side to move have hashes that differ by exactly the side key |
| Zobrist.ZobristHash.MoveUpdatesHash | ai/search_engine.py:126-145 | after a move the hash is the old one with the mover off its source, the victim off the target, and the mover on the target |
| Transposition.Slot | ai/search_engine.py:219 | key % size lies in [0, size) |
| Transposition.StoreThenProbe | ai/search_engine.py:243-264 | after a store that replaces, probing the key gives the new entry stamped with the current generation |
| Transposition.StoreWritesIffReplace | ai/search_engine.py:243-264 | store writes the key's slot exactly when the slot is empty, older than the generation or no deeper; otherwise the table is unchanged |
| Transposition.StoreKeepsOtherSlots | ai/search_engine.py:256-264 | no other slot is touched |
| Transposition.StoreKeepsOtherProbes | ai/search_engine.py:210-264 | a probe of a key in another slot sees no change |
| Transposition.StoreEvictsCollision | ai/search_engine.py:243-264 | a replacing store evicts any other key sharing the slot |
| Transposition.DeeperEntrySurvives | ai/search_engine.py:250-254 | within one search a deeper entry survives a shallower store |
| Transposition.StorePreservesValid | ai/search_engine.py:226-264 | a store keeps every entry in its key's slot and no newer than the generation |
| Transposition.ProbeMatchesKey | ai/search_engine.py:210-224 | a probe answers only with an entry stored under that very key |
| Transposition.NewGenerationPreservesValid | ai/search_engine.py:206-208 | a new search keeps every entry's age at most the generation |
| Transposition.TranspositionTable.constructor | ai/search_engine.py:189-199 | an empty table of the given positive size, generation 0 |
| Transposition.TranspositionTable.Clear | ai/search_engine.py:201-204 | empty table, generation 0 |
| Transposition.TranspositionTable.NewSearch | ai/search_engine.py:206-208 | the generation goes up by one; the entries stay |
| Transposition.TranspositionTable.Probe | ai/search_engine.py:210-224 | the entry in slot key % size when its key matches, None exactly otherwise |
| Transposition.TranspositionTable.Store | ai/search_engine.py:226-264 | the table becomes the pure `Transposition.StoredTable`; the generation is kept |
| Ordering.UpdateKillerEffect | ai/search_engine.py:302-312 | below ply 64 the move becomes a killer, the old first slot moves to the second unless the move already was first, and no other ply changes; from ply 64 on nothing changes |
| Ordering.ZeroHistory | ai/search_engine.py:293 | a history row of ninety zeros for each of the fourteen pieces |
| Ordering.UpdateHistoryValid | ai/search_engine.py:329-340 | every history entry stays in [-8000, 8000], and an empty source square changes nothing |
| Ordering.UpdateHistoryEntries | ai/search_engine.py:329-340 | only the mover's entry for the target square changes: by depth² before the clamp, never down for a good move and never up otherwise |
| Ordering.HistoryScore | ai/search_engine.py:342-357 | the history score lies in [-8000, 8000], and is 0 when the source square is empty |
| Ordering.MvvLva | ai/search_engine.py:374-399 | 0 for a non-capture; a capture scores between -9000 and 100000 |
| Ordering.ScoreBands | ai/search_engine.py:430-450 | the table's move scores 1000000, a capture 91000..200000, a killer 90000, any other move its history in [-8000, 8000] |
| Ordering.HigherTierScoresMore | ai/search_engine.py:430-450 | a move of a higher tier always scores strictly more |
| Ordering.SortDescSortedPerm | ai/search_engine.py:453 | the sort orders by decreasing score and permutes |
| Ordering.SortDescStable | ai/search_engine.py:453 | for each score, the entries with that score keep their input order |
| Ordering.OrderedIsPermutation | ai/search_engine.py:402-455 | order_moves returns a permutation of its input |
| Ordering.OrderedByTier | ai/search_engine.py:402-455 | the ordered moves run from the table's move through captures and killers to the rest, and equal scores keep their input order |
| Ordering.TTMoveFirst | ai/search_engine.py:434-435 | a table move among the input comes out first |
| Ordering.MoveOrderer.constructor | ai/search_engine.py:290-293 | empty killer slots for 64 plies, a zero history row per piece |
| Ordering.MoveOrderer.Clear | ai/search_engine.py:295-300 | empty killers, every history row zeroed, no counter moves |
| Ordering.MoveOrderer.UpdateKiller | ai/search_engine.py:302-312 | the killers become `Ordering.KillersAfter` of the old ones, and the move is then a killer at that ply exactly when the ply is below 64 |
| Ordering.MoveOrderer.UpdateHistory | ai/search_engine.py:314-340 | the history becomes `Ordering.HistoryAfter` of the old one |
| Ordering.MoveOrderer.GetHistoryScore | ai/search_engine.py:342-357 | the orderer's history score lies in [-8000, 8000], and is 0 when the source square is empty |
| Ordering.MoveOrderer.IsKiller | ai/search_engine.py:359-371 | false from ply 64 on, else whether the move is in that ply's slots |
| Ordering.MvvLvaScore | ai/search_engine.py:374-399 | mvv_lva_score on a board gives `Ordering.MvvLva` of its grid |
| Ordering.OrderMoves | ai/search_engine.py:402-455 | the scoring loop and the sort give the pure `Ordering.OrderedMoves`, hence a tiered, stable permutation |
| Ordering.ScoreOf | ai/search_engine.py:431-448 | one move's score, as `Ordering.ScoreMove` gives it |
| Ordering.SortScored | ai/search_engine.py:453 | the insertion loop gives `Ordering.SortDesc` |
| Ordering.MovesFrom | ai/search_engine.py:455 | the comprehension keeps the moves, in order |
| Engine.NullReductionShrinks | ai/search_engine.py:744-748 | the null-move search at depth - 1 - (3 + depth // 4) is strictly shallower |
| Engine.CapturesAreCaptures | ai/search_engine.py:928-933 | a capture is one of the legal moves and lands on a piece |
| Engine.SortByMvvLva | ai/search_engine.py:863 | the stable descending sort by MVV-LVA, a permutation of the captures |
| Engine.LoopKeepsBestBelowAlpha | ai/search_engine.py:802-807 | the move loop never lets best_score pass the loop's alpha |
| Engine.StoredFlagAsWrittenIsAlpha | ai/search_engine.py:816-823 | as written, every node entered with alpha ≥ -INFINITY is stored as ALPHA, whatever its children scored |
| Engine.ExactNodeStoredAsAlpha | ai/search_engine.py:816-823 | a node with one child scoring 30 in the window (-100, 100) is stored as ALPHA, not EXACT |
| Engine.LoopFailsHighIff | ai/search_engine.py:802-814 | the loop's best score reaches beta exactly when some child's does |
| Engine.LoopFailsLowIff | ai/search_engine.py:802-814 | the loop's best score stays at or below a bound exactly when every child's does |
| Engine.CorrectedFlagClassifies | ai/search_engine.py:816-823 | against the node's original alpha the flag is BETA exactly when some child failed high, ALPHA exactly when all failed low, EXACT otherwise |
| Engine.TTCut | ai/search_engine.py:700-721 | only an entry at least as deep cuts; EXACT gives its mate-adjusted score, ALPHA gives alpha, BETA gives beta |
| Engine.AspirationWindow | ai/search_engine.py:547-548 | the full window at depth 1, best_score ± 50 after |
| Engine.ConfigFor | ai/search_engine.py:953-993 | an unknown level gets the middle level's depth 4 and 2 seconds; every depth is 2..6 and every time positive |
| Engine.LevelsDeepen | ai/search_engine.py:953-959 | the levels search 2 to 6 plies, one more each, and each doubles the time of the last |
| Engine.SearchEngine.constructor | ai/search_engine.py:490-507 | an empty table at generation 0, fresh ordering data, not stopped |
| Engine.SearchEngine.Clear | ai/search_engine.py:509-512 | an empty table and fresh move-ordering data |
| Engine.SearchEngine.ShouldStop | ai/search_engine.py:564-575 | the answer is the stop flag, and once set it stays set |
| Engine.SearchEngine.GenerateMoves | ai/search_engine.py:887-909 | the legal moves of the side to move, as `Legality.AllMoves` orders them |
| Engine.SearchEngine.GenerateCaptures | ai/search_engine.py:911-935 | those legal moves, in order, that land on a piece |
| Engine.SearchEngine.AppendCaptures | ai/search_engine.py:930-933 | the inner loop appends the targets that hold a piece |
| Engine.SearchEngine.QuiescenceMoves | ai/search_engine.py:859-863 | the captures, reordered, each landing on a piece |
| Engine.SearchEngine.Quiescence | ai/search_engine.py:827-885 | fail-hard: the result lies in [alpha, beta]; stand-pat at or above beta gives beta; otherwise the result is at least max(alpha, stand_pat), and exactly that without captures |
| Engine.SearchEngine.SearchCapture | ai/search_engine.py:873-876 | one capture, searched with the window negated, scores inside [alpha, beta]; a reply whose stand-pat reaches -alpha makes it exactly alpha |
| Engine.SearchEngine.SearchNode | ai/search_engine.py:661-825 | after the stop it returns 0 and changes nothing; a side without legal moves, in an open window with no usable table entry, scores -MATE_SCORE + ply |
| Engine.SearchEngine.ExpandNode | ai/search_engine.py:723-825 | a side without legal moves scores -MATE_SCORE + ply |
| Engine.SearchEngine.SearchChildren | ai/search_engine.py:763-823 | the tables stay valid, the generation is kept, and a stop stays latched |
| Engine.SearchEngine.MakeMove | ai/search_engine.py:771-772 | the copy holds the moved grid with the other side to move, and the old target content is returned |
| Engine.SearchEngine.NullBoard | ai/search_engine.py:740-741 | the copy has the same grid and the other side to move |
| Engine.SearchEngine.NullMoveCut | ai/search_engine.py:738-752 | a side in check never takes the null move, and nothing changes |
| Engine.SearchEngine.SearchMoves | ai/search_engine.py:765-814 | the best move is one of the moves, alpha never falls, and best_score never passes alpha |
| Engine.SearchEngine.RecordCutoff | ai/search_engine.py:811-813 | the move becomes a killer at its ply and earns depth² history |
| Engine.SearchEngine.SearchMove | ai/search_engine.py:769-798 | the move is quiet exactly when its target is empty |
| Engine.SearchEngine.SearchLateMove | ai/search_engine.py:777-798 | the tables stay valid, the generation is kept, and a stop stays latched |
| Engine.SearchEngine.SearchRoot | ai/search_engine.py:577-659 | no legal move gives (-MATE_SCORE, None); otherwise the move is always a legal one |
| Engine.SearchEngine.SearchRootPosition | ai/search_engine.py:602-659 | the move is one of the ordered moves |
| Engine.SearchEngine.SearchRootMoves | ai/search_engine.py:609-648 | the best move is one of the moves, and alpha never falls |
| Engine.SearchEngine.SearchRootMove | ai/search_engine.py:612-640 | the tables stay valid, the generation is kept, and a stop stays latched |
| Engine.SearchEngine.SearchIteration | ai/search_engine.py:547-554 | a move exactly when there are legal moves, and always a legal one |
| Engine.SearchEngine.Search | ai/search_engine.py:514-562 | one new generation; the answer is always a legal move; None when there is no legal move; a move when not stopped at depth ≥ 1 with legal moves |
| Engine.SearchBestMove | ai/search_engine.py:980-1000 | the answer is a legal move, None without legal moves, a move when not stopped |

## Left out

- The Qt user interface, the worker thread, the icon generator and the package re-exports: they hold no rules or search logic.
- The NNUE network: weight initialisation, loading, the accumulator, the forward pass, the clipped ReLUs and the 0.3/0.7 float blend in `evaluate`. They are float arithmetic. The engine takes its leaf evaluation as a parameter, `evaluate`, an arbitrary integer function of the grid and the side.
- `get_nnue_evaluator`, `nnue_evaluate` and `get_search_engine`: global singletons. `Engine.SearchBestMove` takes the engine as an argument.
- `Nnue.ClassicalEvaluate` is modelled over integers. The source's tables are float32 arrays, but every entry is a whole number.
- `LMR_TABLE` is computed with `math.log`. The engine takes it as a constructor argument: a 64×64 table of naturals, zero on row and column 0.
- Wall-clock time (`time.time()`, `_start_time`, `_time_limit`) is not modelled. `Engine.SearchEngine.ShouldStop` may set the stop flag at any call, and once set it stays set. So the time limit in the difficulty table does not reach the search.
- `SearchStats` and `_pv`: counters and a buffer with no effect on the result.
- `ZobristHash.__init__` draws its keys from a seeded random generator. The constructor takes the keys as arguments instead.
- The table size derived from megabytes: the constructor takes any positive size.
- `MoveOrderer.counter_moves` is only ever cleared. It is kept as a field that `Clear` empties.
- Notation.NotationGenerator.GenerateNotation requires the target column to be on the board when the source holds a piece. The source's column-name lookup raises `KeyError` otherwise.
- Only ASCII `0`-`9` count as digits in a FEN. Python's `isdigit` also accepts other Unicode digits.
- Boards.Board.Copy requires a well-formed grid. A copy goes through `to_fen` and `load_fen`, which would drop characters that are not pieces.
- Ordering.MoveOrderer.UpdateKiller and IsKiller require ply ≥ 0. Python would index the killer list from the end for a negative ply, and no search ever passes one.
- Engine.SearchEngine.SearchNode and ExpandNode state no bound on their score beyond the mate cases. The search with the table, null move and reductions is not related to `Search.Minimax`.
- Engine.SearchEngine.ExpandNode does not model two branches of `_search` that can never run: the win for the side to move (ai/search_engine.py:728-729) and the stalemate score 0 (ai/search_engine.py:757-761). The game-result check before them already returns a loss whenever there is no legal move, as `Legality.GameResultExact` proves. The model marks both places with `assert false`.
- Engine.SearchEngine.SearchIteration: the re-search with the full window when the aspiration score lands on or outside `Engine.AspirationWindow` is in its code only; no contract states it, because `SearchRoot` promises nothing about score values that the re-search could be stated against.
- Engine.SearchEngine.SearchRootPosition, SearchRootMoves, SearchRootMove, SearchLateMove and SearchChildren state only that the tables stay valid, the generation is kept, the stop stays latched, and the move is one of the moves.
- `Engine.ConfigFor` writes the time limits as `real`. Python writes them as floats.

## Findings

| source | as written | input that shows it | evidently intended | confidence | as-written member | corrected member |
|---|---|---|---|---|---|---|
| core/notation.py:56-65 | the direction is 进 when the row number grows, for both colours | a black pawn on (6, 4) stepping to (5, 4) moves toward Red but is written 卒5退1 | 进 when the piece moves toward the opponent: the row grows for Red and shrinks for Black | not executed | Notation.BlackAdvanceWrittenAsRetreat | Notation.CorrectedDirectionFollowsMover |
| ai/search.py:39-48 | a leaf is scored from the side to move at the leaf, whatever the `maximizing` flag | any depth-1 search: each child is scored from the opponent's side, so the maximizing root picks the move that is worst for the side to move | leaves scored from the maximizing player's side, making the search zero-sum | not executed | Search.DepthOneChildIsOpponentView | Search.CorrectedZeroSum |
| ai/search_engine.py:816-823 | the flag compares best_score with the loop-updated alpha, so best_score ≤ alpha always holds and the flag is always ALPHA | one child scoring 30 in the window (-100, 100) is stored as ALPHA | the flag compares with the alpha the node was entered with | not executed | Engine.StoredFlagAsWrittenIsAlpha | Engine.CorrectedFlagClassifies |

In each row the corrected definition stands beside the as-written one. It
has its intended property proved, and the rest of the model keeps the code
as written: the notation, `Search.Minimax` and the engine's store follow the
source. The same flag computation appears at the root
(ai/search_engine.py:651-655).
