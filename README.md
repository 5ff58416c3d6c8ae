# Generalized tic-tac-toe engine, modelled in Dafny

The system plays m,k tic-tac-toe. Two players, X and O, take turns marking
empty cells of an m×m board. The first to get k of their marks in a row,
column or diagonal wins. A full board with no winner is a draw.

The engine has five parts:

- An immutable `GameState`. `makeMove` copies the board, writes one cell and
  passes the turn. It then looks for a win only along the four lines through
  the cell just played.
- A `HeuristicEvaluator` that scores a position for one player. The score is
  line potential (±10^count for windows of k cells held by one side only),
  plus a centre-control bonus, plus mobility (the number of empty cells).
- Three solvers, each a recursive search that counts the nodes it visits in
  `nodesEvaluated`:
  - exhaustive minimax;
  - exhaustive alpha-beta with `beta <= alpha` cut-offs;
  - depth-limited alpha-beta whose leaves are scored by the evaluator, for
    the player to move at the root.
- Three move orderings for the alpha-beta solvers. Each returns a stably
  sorted copy of the move list, sorted by one of:
  - (row, col);
  - Manhattan distance to the centre;
  - descending evaluator score of the successor state.

The Dafny project keeps that structure.

- **Value types become datatypes with pure functions:**
  - `Player.dfy`: `Players`
  - `Position.dfy`: `Positions`
  - `GameState.dfy`: `GameStates`. The board is a `seq<seq<Cell>>`; copying
    then writing a cell is a sequence update.
- **Each loop of the source is a method proved equal to a specification
  function.** Examples: `GetLegalMoves`, `CountConsecutive`,
  `CalculateWinner`, `IsBoardFull`, `ToString`, the evaluator's loops
  (`Heuristic.dfy`) and the orderings (`MoveOrdering.dfy`, `Sorting.dfy`).
- **The solvers are classes** (`Solvers.dfy`):
  - the only mutable field of each is `nodesEvaluated`;
  - each recursive method returns the minimax or alpha-beta value of an
    explicit game tree (`Tree.dfy`, `Search.dfy`);
  - each adds to the counter the number of nodes that tree-level search
    visits.
- **Properties proved once on trees:**
  - alpha-beta's fail-soft window property;
  - alpha-beta equals minimax with the full window;
  - alpha-beta visits no more nodes than minimax;
  - the root tie-break.

  These are then specialised to game states.

Quirks of the code are modelled as written:

- Every solver maximises `getUtility` at the root, which is X's viewpoint,
  whoever is to move.
- An all-empty window scores 0.
- The centre cell counts twice in centre control.
- The depth-limited solver searches `maxDepth` plies below each root move.
- `MinimaxSolver.findBestMove` returns `null` (`None`) when no child value
  exceeds `Integer.MIN_VALUE`.

## Model

| member | source | states |
|---|---|---|
| Players.Symbol | src/model/Player.java:4-14 | the symbol is one character: "X" exactly for X and "O" exactly for O |
| Players.Opponent | src/model/Player.java:16-18 | no player is its own opponent |
| Players.OpponentSwaps | src/model/Player.java:16-18 | the opponent of X is O and the opponent of O is X |
| Players.OpponentInvolution | src/model/Player.java:16-18 | opponent(opponent(p)) == p |
| Players.ExactlyTwoPlayers | src/model/Player.java:4 | every player is X or O |
| Players.SymbolInjective | src/model/Player.java:4-14 | two players have the same symbol iff they are the same player |
| Positions.Equals | src/model/Position.java:13-18 | `equals` holds iff row and column agree, which is value equality |
| Positions.EqualsReflexiveSymmetric | src/model/Position.java:13-18 | `equals` is reflexive and symmetric |
| Positions.JavaInt | src/model/Position.java:21-23 | the result lies in the 32-bit range, is congruent to the argument modulo 2^32 (two's-complement wrap-around), and is the argument itself when that fits |
| Positions.HashCode | src/model/Position.java:21-23 | the hash is a 32-bit int congruent to 31*row + col modulo 2^32, and equal to it whenever that fits |
| Positions.HashCodeRespectsEquals | src/model/Position.java:13-23 | equal positions have equal hash codes |
| Positions.HashCodeInjectiveOnBoards | src/model/Position.java:21-23 | on a board of side at most 31, two cells have equal hashes iff they are the same cell |
| Positions.Digits | src/model/Position.java:26-28 | the decimal digits of a number are digits, non-empty and without a leading zero |
| Positions.DigitsRoundTrip | src/model/Position.java:26-28 | reading the digits of n back gives n |
| Positions.IntToString | src/model/Position.java:26-28 | an int's text is digits with an optional leading minus, present iff the int is negative |
| Positions.IntToStringRoundTrip | src/model/Position.java:26-28 | parsing an int's text gives the int back |
| Positions.ToString | src/model/Position.java:26-28 | the text is "(", the row's text, ", ", the column's text and ")", in that order; its length is 4 plus both numbers' lengths |
| Positions.ToStringInjective | src/model/Position.java:26-28 | different positions print differently |
| GameStates.NewGame | src/model/GameState.java:14-21 | an m×m board with every cell empty, X to move, no winner and not terminal |
| GameStates.NewGameMoves | src/test/TestGame.java:22-26 | a new game offers all m² cells and holds no marks |
| GameStates.NewGameValid | src/model/GameState.java:14-21 | a new game satisfies the reachable-state invariant `Valid` |
| GameStates.Utility | src/model/GameState.java:139-142 | +1 iff X has won, -1 iff O has won, 0 iff there is no winner |
| GameStates.CountRowUpdate | src/model/GameState.java:69-70 | writing one cell changes a row's count of a value by the cell's old and new contents only |
| GameStates.CountRowsPartition | src/model/GameState.java:52-62 | empty, X and O cells of the first i rows add up to i·m |
| GameStates.LegalMoves | src/model/GameState.java:52-62 | a position is listed iff it is an in-bounds empty cell; the length is the number of empty cells |
| GameStates.LegalMovesRowMajor | src/model/GameState.java:52-62 | the list is strictly increasing in row-major order, hence without duplicates |
| GameStates.LegalMovesPlusOccupied | src/model/GameState.java:52-62 | legal moves plus X cells plus O cells make m² |
| GameStates.EmptiesBeforeFacts | src/model/GameState.java:54-60 | the empty cells of the first i rows are listed exactly, in row-major order |
| GameStates.GetLegalMoves | src/model/GameState.java:52-62 | the nested loop returns exactly `LegalMoves` |
| GameStates.RunLengthSpan | src/model/GameState.java:106-118 | a run covers exactly the consecutive owned cells from its start, and the next cell is not owned |
| GameStates.RunLengthBound | src/model/GameState.java:106-118 | from a board cell, `countConsecutive` counts at most m - 1 cells |
| GameStates.CountConsecutive | src/model/GameState.java:106-118 | the while loop returns the run length of the player's cells from start + (dr, dc) |
| GameStates.OwnedAtReversed | src/model/GameState.java:95-96 | t steps along (-dr, -dc) is -t steps along (dr, dc) |
| GameStates.BackwardRun | src/model/GameState.java:96 | the backward count covers steps -g..-1, and step -(g+1) is not owned |
| GameStates.AxisInterval | src/model/GameState.java:93-96 | on one axis the owned cells around the placed cell are exactly steps -g..f |
| GameStates.LineFromCount | src/model/GameState.java:93-98 | an axis count of at least k yields k owned cells in a row through the cell |
| GameStates.CountFromLine | src/model/GameState.java:93-98 | k owned cells in a row through the cell make the axis count at least k |
| GameStates.AxisCountMeansLine | src/model/GameState.java:92-101 | the axis count reaches k iff the player has k in a row on that axis through the cell |
| GameStates.WinnerAtMeansLine | src/model/GameState.java:79-104 | the winner check names p iff p has k in a row through the last move on one of the four axes |
| GameStates.CountAxis | src/model/GameState.java:93-96 | 1 plus both consecutive counts equals `AxisCount` |
| GameStates.CalculateWinner | src/model/GameState.java:79-104 | the loop over the four directions returns the function `WinnerAt` |
| GameStates.FullIffNoMoves | src/model/GameState.java:120-129 | the board is full iff there are no legal moves |
| GameStates.IsBoardFull | src/model/GameState.java:120-129 | the nested scan returns true iff no cell is empty |
| GameStates.Successor | src/model/GameState.java:64-77 | the new state is well formed with the same m and k, and has exactly one legal move fewer |
| GameStates.TryMove | src/model/GameState.java:64-67 | the result is the occupied-cell error iff the target is not empty |
| GameStates.SuccessorBoard | src/model/GameState.java:69-72 | the target holds the mover, every other cell is unchanged, and the opponent is to move |
| GameStates.SuccessorLegalMoves | src/model/GameState.java:64-77 | the legal moves afterwards are the old ones minus the target |
| GameStates.SuccessorWinner | src/model/GameState.java:73-104 | the winner is nobody or the mover: the mover iff some axis count reaches k, iff k in a row through the target; terminal iff won or no moves left |
| GameStates.MakeMove | src/model/GameState.java:64-77 | copy, write, opponent, `calculateWinner`, `isBoardFull` give exactly `TryMove` |
| GameStates.SuccessorValid | src/model/GameState.java:64-77 | every move keeps `Valid`: terminal iff won or full, a winner is the last mover, marks alternate from X |
| GameStates.NonTerminalHasMoves | src/model/GameState.java:74 | a valid non-terminal state has a legal move |
| GameStates.WinnerIsTerminal | src/model/GameState.java:74 | a valid state with a winner is terminal |
| GameStates.TopRowCompleted | src/test/TestGame.java:37-41 | X filling the empty third cell of a top row holding X, X on a 3×3 board wins, ends the game and scores 1 |
| GameStates.PlayFirst | src/test/TestGame.java:33-37 | playing a move list is playing its first move and then the rest |
| GameStates.TopRowWin | src/test/TestGame.java:30-43 | playing (0,0),(1,0),(0,1),(1,1),(0,2) from a new 3×3 game ends it with X winning and utility 1 |
| GameStates.RowPrefixTextAt | src/model/GameState.java:155-158 | character 2x of a row's text is cell x's symbol and character 2x+1 is a space |
| GameStates.RenderLength | src/model/GameState.java:152-163 | the text of i rows is i·(2m+1) characters long |
| GameStates.RenderLine | src/model/GameState.java:152-163 | line r of the text is row r's cells, each followed by a space, then a newline |
| GameStates.RenderCell | src/model/GameState.java:152-163 | in line r, character 2c shows cell (r, c), 2c+1 is a space and 2m is the newline |
| GameStates.ToString | src/model/GameState.java:152-163 | the nested loop builds exactly `Render` |
| Heuristic.JavaPow10 | src/engine/HeuristicEvaluator.java:79-81 | `(int) Math.pow(10, n)` is 10^n for n ≤ 9 and saturates at Integer.MAX_VALUE above |
| Heuristic.Pow10Monotone | src/engine/HeuristicEvaluator.java:79-81 | 10^a ≤ 10^b for a ≤ b |
| Heuristic.PowBound | src/engine/HeuristicEvaluator.java:79-81 | 10^n ≤ 10^9 for n ≤ 9, so the cast is exact |
| Heuristic.JavaPow10Monotone | src/engine/HeuristicEvaluator.java:78-82 | a larger count never scores less |
| Heuristic.LineScore | src/engine/HeuristicEvaluator.java:74-84 | positive iff only the player's marks are present, negative iff only the opponent's; ±10^count when count ≤ 9 and ±Integer.MAX_VALUE (the saturated cast) from count 10 on |
| Heuristic.LineScoreAntisymmetric | src/engine/HeuristicEvaluator.java:74-84 | swapping the two counts negates the score |
| Heuristic.WindowScoreAntisymmetric | src/engine/HeuristicEvaluator.java:56-85 | a window scores for the opponent minus what it scores for the player |
| Heuristic.EvaluateLine | src/engine/HeuristicEvaluator.java:56-85 | the counting loop then the score equals `WindowScore` |
| Heuristic.ScanRangeIsInside | src/engine/HeuristicEvaluator.java:25-51 | a window starting on the board is scanned iff all k of its cells are on the board |
| Heuristic.ScanWindowInside | src/engine/HeuristicEvaluator.java:25-51 | every scanned window lies on the board |
| Heuristic.NoWindowsWhenTooLong | src/engine/HeuristicEvaluator.java:25-51 | with k > m no window is scanned |
| Heuristic.InnerSumAntisymmetric | src/engine/HeuristicEvaluator.java:27-29 | an inner loop's total for the opponent is minus the player's |
| Heuristic.OuterSumAntisymmetric | src/engine/HeuristicEvaluator.java:26-30 | a double loop's total for the opponent is minus the player's |
| Heuristic.LinesAntisymmetric | src/engine/HeuristicEvaluator.java:20-54 | line potential is zero-sum between the two players |
| Heuristic.ScanAt | src/engine/HeuristicEvaluator.java:28 | one loop body is `evaluateLine` on the window its indices select |
| Heuristic.ScanInner | src/engine/HeuristicEvaluator.java:27-29 | the inner loop sums its windows' scores |
| Heuristic.ScanWindows | src/engine/HeuristicEvaluator.java:25-51 | each double loop sums the scores of its windows |
| Heuristic.EvaluateLines | src/engine/HeuristicEvaluator.java:20-54 | rows, columns, diagonals and anti-diagonals summed give `Lines` |
| Heuristic.BlockHasCenter | src/engine/HeuristicEvaluator.java:96-101 | the 3×3 block count includes the centre cell and at most 8 others |
| Heuristic.CenterControlBounds | src/engine/HeuristicEvaluator.java:87-105 | centre control lies in [0, 12]; at least 4 when the player holds the centre, at most 8 otherwise |
| Heuristic.CountBlockRow | src/engine/HeuristicEvaluator.java:97-101 | the inner loop counts the player's in-bounds cells of one block row |
| Heuristic.EvaluateCenterControl | src/engine/HeuristicEvaluator.java:87-105 | 3 for the centre plus one per held block cell equals `CenterControl` |
| Heuristic.Mobility | src/engine/HeuristicEvaluator.java:107-109 | mobility is the number of empty cells, at most m², and has no player argument |
| Heuristic.EvaluateMobility | src/engine/HeuristicEvaluator.java:107-109 | the size of the legal-move list, whatever the player |
| Heuristic.EvaluateTerminal | src/engine/HeuristicEvaluator.java:8-10 | a finished game scores 1 iff the player won, -1 iff the opponent won, 0 iff drawn |
| Heuristic.EvaluateSum | src/engine/HeuristicEvaluator.java:12-17 | the two players' scores of an unfinished game add up to both centre bonuses plus twice the mobility |
| Heuristic.EvaluateState | src/engine/HeuristicEvaluator.java:7-18 | utility with the sign for the player when terminal, else lines + centre + mobility |
| Sorting.WithKeyMembers | src/strategies/CenterFirstMoveOrdering.java:15-19 | the per-key sublist holds exactly the elements carrying that key |
| Sorting.InsertPermutation | src/strategies/DefaultMoveOrdering.java:12-15 | one insertion adds exactly the inserted element to the multiset |
| Sorting.SortedUnique | src/strategies/DefaultMoveOrdering.java:12-15 | two sorted sequences with the same per-key sublists are equal |
| Sorting.InsertSorted | src/strategies/DefaultMoveOrdering.java:12-15 | inserting into a sorted sequence keeps it sorted |
| Sorting.InsertWithKey | src/strategies/CenterFirstMoveOrdering.java:15-19 | the inserted element lands before every element with its own key |
| Sorting.SortByPermutation | src/strategies/DefaultMoveOrdering.java:11-16 | the sort keeps every element with its multiplicity |
| Sorting.SortByMovesPermutation | src/strategies/DefaultMoveOrdering.java:11-16 | the moves that come out are the moves that went in |
| Sorting.SortBySorted | src/strategies/DefaultMoveOrdering.java:12-15 | the result is in non-decreasing key order |
| Sorting.SortByStable | src/strategies/CenterFirstMoveOrdering.java:15-19 | for every key, its elements keep their input order |
| Sorting.SortBySortedIdentity | src/strategies/DefaultMoveOrdering.java:12-15 | sorting a sorted sequence returns it unchanged |
| Sorting.SortByIdempotent | src/strategies/DefaultMoveOrdering.java:12-16 | sorting twice is sorting once |
| Sorting.StableSortUnique | src/strategies/HeuristicMoveOrdering.java:26 | any sorted result that is stable for every key is the one `SortBy` gives, so the result of a stable sort is unique |
| Sorting.InsertInto | src/strategies/DefaultMoveOrdering.java:12-15 | one insertion step on the array: the prefix is untouched and the suffix becomes `Insert` of the element |
| Sorting.StableSort | src/strategies/DefaultMoveOrdering.java:12-15 | the in-place sort leaves `SortBy` of the old contents in the array |
| MoveOrdering.TagConsistent | src/strategies/HeuristicMoveOrdering.java:20-24 | every tag is its own move's key (for the heuristic ordering, its successor's score), and the tagged moves are the input in order |
| MoveOrdering.RetagOrdered | src/strategies/HeuristicMoveOrdering.java:26-32 | tagging the ordered moves again gives the sorted tags |
| MoveOrdering.OrderedMovesPermutation | src/strategies/DefaultMoveOrdering.java:11-16 | each ordering returns a permutation of its input |
| MoveOrdering.OrderedMovesSorted | src/strategies/DefaultMoveOrdering.java:12-15 | each ordering's result is non-decreasing in its comparator's key |
| MoveOrdering.OrderedMovesStable | src/strategies/CenterFirstMoveOrdering.java:15-19 | moves with equal keys keep their input order |
| MoveOrdering.OrderedMovesIdempotent | src/strategies/DefaultMoveOrdering.java:12-16 | ordering an ordered list changes nothing |
| MoveOrdering.DefaultOrderingRowMajor | src/strategies/DefaultMoveOrdering.java:12-15 | the default ordering is lexicographic by (row, col) |
| MoveOrdering.DefaultOrderingKeepsLegalMoves | src/strategies/DefaultMoveOrdering.java:12-15 | on `getLegalMoves()` output the default ordering returns the same sequence |
| MoveOrdering.CenterFirstByDistance | src/strategies/CenterFirstMoveOrdering.java:11-19 | the Manhattan distance to (m/2, m/2) never decreases along the result |
| MoveOrdering.CenterFirstStable | src/strategies/CenterFirstMoveOrdering.java:15-19 | moves at the same distance keep their input order |
| MoveOrdering.CenterFirstPutsCenterFirst | src/strategies/CenterFirstMoveOrdering.java:16-18 | when (m/2, m/2) is offered, it comes first |
| MoveOrdering.HeuristicByScore | src/strategies/HeuristicMoveOrdering.java:26 | scores never increase along the result |
| MoveOrdering.HeuristicStable | src/strategies/HeuristicMoveOrdering.java:26 | moves with equal scores keep their input order |
| MoveOrdering.SortCopy | src/strategies/DefaultMoveOrdering.java:11-15 | sorting a fresh array copy yields `SortBy` of the list |
| MoveOrdering.ScoreMove | src/strategies/HeuristicMoveOrdering.java:21-22 | a move's score is the evaluation of its successor for the player to move |
| MoveOrdering.ScoreMoves | src/strategies/HeuristicMoveOrdering.java:18-24 | the first loop pairs every move, in order, with its key: minus the evaluation of its successor for the mover (`TagConsistent`) |
| MoveOrdering.ExtractMoves | src/strategies/HeuristicMoveOrdering.java:28-32 | the second loop returns the positions of the scored moves in order |
| MoveOrdering.OrderByComparator | src/strategies/DefaultMoveOrdering.java:10-17 | the default and centre-first `orderMoves` return `OrderedMoves` |
| MoveOrdering.OrderByHeuristic | src/strategies/HeuristicMoveOrdering.java:17-34 | scoring, sorting by descending score and extracting returns `OrderedMoves` |
| MoveOrdering.OrderMoves | src/strategies/MoveOrderingStrategy.java:7-8 | the interface call returns the chosen strategy's `OrderedMoves` |
| SearchTrees.Size | src/algorithms/MinimaxSolver.java:35 | every tree counts at least one node, its root |
| SearchTrees.SizeFoldMonotone | src/algorithms/MinimaxSolver.java:35 | counting more children never lowers the count |
| SearchTrees.FoldBelow | src/algorithms/AlphaBetaSolver.java:49 | a node whose child values all appear among another's is no better for the mover |
| SearchTrees.BoundedFold | src/algorithms/MinimaxSolver.java:41-57 | with leaves in [lo, hi], the running max or min over at least one child lies in [lo, hi] |
| SearchTrees.ABFold | src/algorithms/AlphaBetaSolver.java:51-75 | the loop's visited count never falls below what was counted before it |
| SearchTrees.BestSoFar | src/algorithms/MinimaxSolver.java:21-29 | the index kept after n root iterations is -1 or one of the first n |
| SearchTrees.FoldMonotone | src/algorithms/MinimaxSolver.java:41-57 | the running max never drops and bounds every child seen (the running min mirrors it) |
| SearchTrees.FoldAttained | src/algorithms/MinimaxSolver.java:41-57 | the running max is the sentinel or some child's value |
| SearchTrees.SameChildValues | src/algorithms/MinimaxSolver.java:41-57 | two nodes with the same child values have the same minimax value |
| SearchTrees.BoundedValue | src/algorithms/MinimaxSolver.java:37-39 | with leaves in [lo, hi] and no empty node, the minimax value lies in [lo, hi] |
| SearchTrees.AlphaBeta | src/algorithms/AlphaBetaSolver.java:42-76 | every call counts at least its own node |
| SearchTrees.ABFoldMaxStep | src/algorithms/AlphaBetaSolver.java:51-62 | one maximising step raises alpha and the best value; it stops once beta <= alpha |
| SearchTrees.ABFoldMinStep | src/algorithms/AlphaBetaSolver.java:63-75 | one minimising step lowers beta and the best value; it stops once beta <= alpha |
| SearchTrees.AlphaBetaWindow | src/algorithms/AlphaBetaSolver.java:42-76 | fail-soft window: a result ≤ alpha bounds the true value above, one ≥ beta bounds it below, and one inside is exact |
| SearchTrees.MaxFoldWindow | src/algorithms/AlphaBetaSolver.java:51-62 | the window property for the maximising loop |
| SearchTrees.MinFoldWindow | src/algorithms/AlphaBetaSolver.java:63-75 | the window property for the minimising loop |
| SearchTrees.FullWindowIsMinimax | src/algorithms/AlphaBetaSolver.java:31 | with the full window, alpha-beta returns the minimax value |
| SearchTrees.AlphaBetaVisitsAtMostSize | src/algorithms/AlphaBetaSolver.java:43 | alpha-beta counts no more nodes than the tree has |
| SearchTrees.ABFoldVisits | src/algorithms/AlphaBetaSolver.java:53-73 | the loop counts no more than the subtrees of the children still to be tried |
| SearchTrees.BestSoFarNext | src/algorithms/AlphaBetaSolver.java:29-37 | one root iteration replaces the best only on a strictly greater value |
| SearchTrees.BestSoFarSpec | src/algorithms/MinimaxSolver.java:21-29 | the root loop keeps the first index reaching the strict maximum above Integer.MIN_VALUE, or none when no value exceeds it |
| SearchTrees.BestIndexOnTies | src/algorithms/AlphaBetaSolver.java:33-36 | when every value ties, the strict `>` keeps the first index, or none |
| SearchTrees.BestIndexSpec | src/algorithms/MinimaxSolver.java:18-29 | the chosen index has a value ≥ every value and > every earlier one; -1 iff no value beats Integer.MIN_VALUE |
| GameSearch.ChildMoves | src/algorithms/AlphaBetaSolver.java:49 | the moves tried are as many as the legal moves, and each is legal |
| GameSearch.ChildMovesPermutation | src/algorithms/AlphaBetaSolver.java:49 | every ordering tries each legal move exactly once |
| GameSearch.Children | src/algorithms/MinimaxSolver.java:41-57 | there is one child tree per legal move |
| GameSearch.ChildAt | src/algorithms/MinimaxSolver.java:42-44 | the i-th child is the tree of the i-th move's successor |
| GameSearch.ExhaustiveTreeBounded | src/algorithms/MinimaxSolver.java:37-39 | in a state reached by play, every leaf is a utility in {-1, 0, 1} and every inner node has a child |
| GameSearch.MinimaxValueRange | src/algorithms/MinimaxSolver.java:34-58 | `minimax` returns -1, 0 or 1 on any state reached by play |
| GameSearch.DefaultOrderingTree | src/strategies/DefaultMoveOrdering.java:12-15 | the default-ordered game tree is the unordered one |
| GameSearch.ValueOrderIndependent | src/algorithms/AlphaBetaSolver.java:49 | the move order does not change the minimax value |
| GameSearch.ChildValuesCovered | src/algorithms/AlphaBetaSolver.java:49 | every child value under one ordering is a child value under another |
| GameSearch.MinimaxRootValues | src/algorithms/MinimaxSolver.java:21-24 | one value per legal move at the root |
| GameSearch.AlphaBetaRootValues | src/algorithms/AlphaBetaSolver.java:29-32 | one value per legal move at the root |
| GameSearch.AlphaBetaRootValueAt | src/algorithms/AlphaBetaSolver.java:31 | root child i is searched with the fresh full window as a minimising node |
| GameSearch.MinimaxRootValueAt | src/algorithms/MinimaxSolver.java:23 | root child i is searched as a minimising node |
| GameSearch.RootPick | src/algorithms/AlphaBetaSolver.java:27-37 | the alpha-beta root loop returns one of the moves tried |
| GameSearch.NodesNext | src/algorithms/MinimaxSolver.java:35 | counting one more root child adds its tree's count |
| GameSearch.MinimaxChoiceLegal | src/algorithms/MinimaxSolver.java:14-32 | `findBestMove` returns null iff there is no legal move, and otherwise a legal move |
| GameSearch.AlphaBetaChoiceOnTies | src/algorithms/AlphaBetaSolver.java:27-37 | when all root values tie, the alpha-beta solvers return the first move of their ordering |
| GameSearch.AlphaBetaChoiceLegal | src/algorithms/AlphaBetaSolver.java:22-40 | the alpha-beta solvers return a legal move |
| GameSearch.AlphaBetaRootValuesExact | src/algorithms/AlphaBetaSolver.java:31 | under any ordering each root child gets its minimax value |
| GameSearch.AlphaBetaEqualsMinimax | src/algorithms/AlphaBetaSolver.java:42-76 | under any ordering, alphaBeta(s, MIN, MAX, isMax) equals minimax(s, isMax) on states reached by play |
| GameSearch.AlphaBetaSameMoveAsMinimax | src/test/TestGame.java:45-54 | with the default ordering, `AlphaBetaSolver` picks `MinimaxSolver`'s move |
| GameSearch.SearchedAtMostTree | src/algorithms/AlphaBetaSolver.java:43 | the alpha-beta root count is at most the minimax root count |
| GameSearch.AlphaBetaNoMoreNodes | src/Main.java:231-234 | with the default ordering, `AlphaBetaSolver` counts no more nodes than `MinimaxSolver` on every state (the ≤ form of the strict check there) |
| GameSearch.DepthLimitedMinimaxValues | src/algorithms/DepthLimitedSolver.java:36-39 | one depth-limited minimax value per root move |
| GameSearch.DepthLimitedIsMinimax | src/algorithms/DepthLimitedSolver.java:60-80 | with the full window, the depth-limited solver's root values and move are those of plain depth-limited minimax over the same leaves |
| GameSearch.DepthZeroIsLeaf | src/algorithms/DepthLimitedSolver.java:54-56 | at depth 0 the search returns evaluate(state, originalPlayer) |
| GameSearch.DeeperKeepsPerspective | src/algorithms/DepthLimitedSolver.java:63-74 | each ply takes one off the depth and keeps `originalPlayer` |
| Solvers.TreeShape | src/algorithms/AlphaBetaSolver.java:45-49 | a non-leaf state's tree has one child per move tried |
| Solvers.ChildState | src/algorithms/AlphaBetaSolver.java:54 | `makeMove` on the i-th move tried succeeds and gives the state of the i-th child tree, with fewer legal moves |
| Solvers.MovesInBounds | src/algorithms/AlphaBetaSolver.java:53-54 | every move tried is in bounds |
| Solvers.TriedMoves | src/algorithms/AlphaBetaSolver.java:49 | `orderMoves(state, getLegalMoves())` returns the moves in the order of the tree |
| Solvers.MinimaxSolver.constructor | src/algorithms/MinimaxSolver.java:10-12 | the counter starts at 0 |
| Solvers.MinimaxSolver.FindBestMove | src/algorithms/MinimaxSolver.java:14-32 | resets the counter, returns `MinimaxChoice`, and leaves the counter at the node count of the root children's trees |
| Solvers.MinimaxSolver.RootLoop | src/algorithms/MinimaxSolver.java:18-29 | the first move with the strictly greatest child value, and the counter advanced by the children's tree sizes |
| Solvers.MinimaxSolver.Minimax | src/algorithms/MinimaxSolver.java:34-58 | returns the minimax value of the state's tree and adds its size to the counter |
| Solvers.MinimaxSolver.SearchChild | src/algorithms/MinimaxSolver.java:44-45 | `makeMove` then `minimax` on the i-th child |
| Solvers.AlphaBetaSolver.WithDefaultOrdering | src/algorithms/AlphaBetaSolver.java:13-15 | default ordering, counter 0 |
| Solvers.AlphaBetaSolver.constructor | src/algorithms/AlphaBetaSolver.java:17-20 | the given ordering, counter 0 |
| Solvers.AlphaBetaSolver.FindBestMove | src/algorithms/AlphaBetaSolver.java:22-40 | resets the counter, returns `AlphaBetaChoice`, and leaves the counter at the full-window alpha-beta count of the root children |
| Solvers.AlphaBetaSolver.RootLoop | src/algorithms/AlphaBetaSolver.java:26-37 | the root loop's move and counter are those of the tree-level functions |
| Solvers.AlphaBetaSolver.AlphaBeta | src/algorithms/AlphaBetaSolver.java:42-76 | returns the tree-level alpha-beta value and adds its visited count to the counter |
| Solvers.AlphaBetaSolver.MaxLoop | src/algorithms/AlphaBetaSolver.java:51-62 | the maximising loop with its break equals the tree-level `ABFold` |
| Solvers.AlphaBetaSolver.MinLoop | src/algorithms/AlphaBetaSolver.java:63-75 | the minimising loop with its break equals the tree-level `ABFold` |
| Solvers.AlphaBetaSolver.SearchChild | src/algorithms/AlphaBetaSolver.java:54-55 | `makeMove` then `alphaBeta` on the i-th child |
| Solvers.DepthLimitedSolver.WithDefaultOrdering | src/algorithms/DepthLimitedSolver.java:17-19 | the depth, default ordering, counter 0 |
| Solvers.DepthLimitedSolver.constructor | src/algorithms/DepthLimitedSolver.java:21-26 | the depth and ordering given, counter 0 |
| Solvers.DepthLimitedSolver.FindBestMove | src/algorithms/DepthLimitedSolver.java:28-48 | resets the counter and returns `AlphaBetaChoice` over the depth-limited horizon for the root mover, with the matching node count |
| Solvers.DepthLimitedSolver.RootLoop | src/algorithms/DepthLimitedSolver.java:32-45 | each root child is searched `maxDepth` plies for `maximizingPlayer`; the strict-`>` first-wins pick |
| Solvers.DepthLimitedSolver.AlphaBeta | src/algorithms/DepthLimitedSolver.java:50-81 | the value and node count of the tree cut at `depth`, with leaves scored for `originalPlayer` |
| Solvers.DepthLimitedSolver.MaxLoop | src/algorithms/DepthLimitedSolver.java:60-69 | the maximising loop at depth - 1 equals `ABFold` |
| Solvers.DepthLimitedSolver.MinLoop | src/algorithms/DepthLimitedSolver.java:70-80 | the minimising loop at depth - 1 equals `ABFold` |
| Solvers.DepthLimitedSolver.SearchChild | src/algorithms/DepthLimitedSolver.java:63-64 | `makeMove` then `alphaBeta` on the i-th child, with depth - 1 and the same `originalPlayer` |

## Left out

- The console game, the self-check in `src/Main.java`, the test harness
  `src/test/TestGame.java` and the pass-through `src/engine/GameEngine.java`
  are not modelled. The assertions of the first two are stated as lemmas.
- Getters (`getCurrentPlayer`, `getPlayerAt`, `getSize`, `getK`, `isEmpty`,
  `isTerminal`, `getWinner`, `getNodesEvaluated`) are the datatype and class
  fields themselves.
- `calculateWinner` with a null `lastMove` is not modelled. `makeMove`
  always passes the move it just played.
- An out-of-bounds move is an array-index exception in the source.
  `MakeMove` and `CalculateWinner` take in-bounds positions as a
  precondition. The occupied-cell `IllegalArgumentException` is modelled
  as `MoveOutcome.Occupied`.
- The constructor does not check (m, k). The model assumes 1 <= k <= m
  (`WellFormed`).
- Solvers.AlphaBetaSolver.FindBestMove: the `moves.get(0)` exception on a
  state without legal moves is a precondition (`LegalMoves(s) != []`).
- Solvers.DepthLimitedSolver.FindBestMove: the same `moves.get(0)` exception
  is a precondition.
- MoveOrdering.OrderByHeuristic: the source's `makeMove` throws on an
  occupied move. The model requires every move to be legal (`AllKeyable`).
- Scores and counters are unbounded integers. Java `int` overflow of
  `score`, of `nodesEvaluated` and of `31*row + col` is not modelled, except
  that `HashCode` reduces to 32 bits. `Integer.MIN_VALUE` and
  `Integer.MAX_VALUE` are kept as sentinel constants.
- GameSearch.DepthLimitedIsMinimax: proved only while every root child's
  depth-limited minimax value lies strictly between the sentinels.
  Evaluator scores can reach them on huge boards.
- The depth-limited solver's `HeuristicEvaluator` constructor argument is
  not a parameter. The evaluator has no state, so it is always `Evaluate`.
- `List.sort` is modelled as a stable insertion sort on (key, move) pairs.
  `Sorting.StableSortUnique` shows every stable sort gives the same result,
  so TimSort's exact steps do not matter. Comparators are represented by
  the integer key they compare.
- Lists and the `Player[][]` board are values (`seq`). Aliasing and in-place
  update of the copied array are not modelled, and the source never shares
  them.
- Several loop bodies and loops of the source are separate methods in the
  model:
  - the root loops (`RootLoop`);
  - the maximising and minimising loops (`MaxLoop`, `MinLoop`);
  - `makeMove` followed by the recursive call (`SearchChild`);
  - one axis of `calculateWinner` (`CountAxis`);
  - one block row of `evaluateCenterControl` (`CountBlockRow`);
  - one window of `evaluateLines` (`ScanAt`, `ScanInner`);
  - one scored move (`ScoreMove`).
  Their statements are unchanged.
- Exact node counts and timings, and the claim that the win check costs
  O(k), are not modelled. Main's "strictly fewer nodes" check on the empty
  3×3 board is proved only in its ≤ form (`AlphaBetaNoMoreNodes`).
- The heuristic-versus-default comparison on the empty 3×3 board
  (src/test/TestGame.java:69-70, src/Main.java:250-257) has no counterpart
  in the model. No lemma relates the heuristic-ordered solver's move or node
  count to the default-ordered one's; `ValueOrderIndependent` relates values
  only. Read from the code (not executed), the same-move claim is unlikely
  to hold:
  - every opening move of 3×3 tic-tac-toe draws, so all nine root values
    are 0;
  - by `AlphaBetaChoiceOnTies`, each solver then returns the first move of
    its ordering;
  - the default ordering starts with (0,0), while the heuristic ordering
    scores the centre highest (52, against 39 for a corner and 29 for an
    edge) and starts with (1,1).
  Evaluating the heuristic on concrete boards and the full 3×3 game tree is
  beyond static proof here.
