/**
 * The trees the three solvers search, built from game states, and what
 * their `findBestMove` root loops return (src/algorithms/).
 *
 * `MinimaxSolver` walks `getLegalMoves()` in row-major order to the end of
 * the game; the alpha-beta solvers walk the moves in the order of their
 * `MoveOrderingStrategy`, and `DepthLimitedSolver` stops after a number of
 * plies and scores its leaves with the evaluator.
 */
module GameSearch {
  import opened Optional
  import opened Players
  import opened Positions
  import opened GameStates
  import opened Heuristic
  import opened MoveOrdering
  import opened SearchTrees

  /** How deep a search goes: to the end of the game, or `depth` more plies scored for `perspective`. */
  datatype Horizon = Exhaustive | Plies(depth: int, perspective: Player)

  /** A search stops at a terminal state, and a depth-limited one also when its depth reaches 0. */
  predicate IsLeaf(s: GameState, h: Horizon) {
    s.isTerminal || (h.Plies? && h.depth == 0)
  }

  /** What a search returns at a leaf: the utility, or the evaluation for the fixed perspective. */
  function LeafScore(s: GameState, h: Horizon): int
    requires WellFormed(s)
  {
    if h.Exhaustive? then Utility(s) else Evaluate(s, h.perspective)
  }

  /** The horizon one ply further down: depth - 1, the same perspective. */
  function Deeper(h: Horizon): Horizon {
    if h.Exhaustive? then Exhaustive else Plies(h.depth - 1, h.perspective)
  }

  /** The legal moves of a state, in the order a solver tries them (None: `getLegalMoves()` as is). */
  function ChildMoves(s: GameState, order: Option<Strategy>): (ms: seq<Position>)
    requires WellFormed(s)
    ensures |ms| == |LegalMoves(s)|
    ensures forall i :: 0 <= i < |ms| ==> IsLegal(s, ms[i])
  {
    match order
    case None => LegalMoves(s)
    case Some(st) =>
      LegalMovesKeyable(st, s);
      OrderedMovesPermutation(st, s, LegalMoves(s));
      MembersLegal(s, OrderedMoves(st, s, LegalMoves(s)));
      OrderedMoves(st, s, LegalMoves(s))
  }

  /** Every ordering tries each legal move exactly once. */
  lemma ChildMovesPermutation(s: GameState, order: Option<Strategy>)
    requires WellFormed(s)
    ensures multiset(ChildMoves(s, order)) == multiset(LegalMoves(s))
  {
    if order.Some? {
      LegalMovesKeyable(order.value, s);
      OrderedMovesPermutation(order.value, s, LegalMoves(s));
    }
  }

  lemma LegalMovesKeyable(st: Strategy, s: GameState)
    requires WellFormed(s)
    ensures AllKeyable(st, s, LegalMoves(s))
  {
    var ms := LegalMoves(s);
    forall i | 0 <= i < |ms|
      ensures Keyable(st, s, ms[i])
    {
      assert ms[i] in ms;
    }
  }

  /** A reordering of the legal moves holds legal moves only. */
  lemma MembersLegal(s: GameState, ms: seq<Position>)
    requires WellFormed(s) && multiset(ms) == multiset(LegalMoves(s))
    ensures forall i :: 0 <= i < |ms| ==> IsLegal(s, ms[i])
  {
    forall i | 0 <= i < |ms|
      ensures IsLegal(s, ms[i])
    {
      assert ms[i] in multiset(ms);
      assert ms[i] in LegalMoves(s);
    }
  }

  /** The tree a solver explores from `s`. */
  function GameTree(s: GameState, order: Option<Strategy>, h: Horizon): Tree
    requires WellFormed(s)
    decreases |LegalMoves(s)|, 2
  {
    if IsLeaf(s, h) then Leaf(LeafScore(s, h)) else Node(Children(s, order, Deeper(h)))
  }

  /** The trees below the successors of `s`, one per move in the order tried. */
  function Children(s: GameState, order: Option<Strategy>, h: Horizon): (kids: seq<Tree>)
    requires WellFormed(s)
    ensures |kids| == |LegalMoves(s)|
    decreases |LegalMoves(s)|, 1
  {
    ChildTrees(s, order, h, ChildMoves(s, order))
  }

  /** The trees below the successors for the moves `ms`, in that order. */
  function ChildTrees(s: GameState, order: Option<Strategy>, h: Horizon, ms: seq<Position>): (kids: seq<Tree>)
    requires WellFormed(s) && forall i :: 0 <= i < |ms| ==> IsLegal(s, ms[i])
    ensures |kids| == |ms|
    decreases |LegalMoves(s)|, 0, |ms|
  {
    if ms == [] then []
    else ChildTrees(s, order, h, ms[..|ms| - 1]) + [GameTree(Successor(s, ms[|ms| - 1]), order, h)]
  }

  lemma {:induction false} ChildTreesAt(s: GameState, order: Option<Strategy>, h: Horizon, ms: seq<Position>, i: nat)
    requires WellFormed(s) && forall i :: 0 <= i < |ms| ==> IsLegal(s, ms[i])
    requires i < |ms|
    ensures ChildTrees(s, order, h, ms)[i] == GameTree(Successor(s, ms[i]), order, h)
    decreases |ms|
  {
    if i < |ms| - 1 {
      ChildTreesAt(s, order, h, ms[..|ms| - 1], i);
    }
  }

  /** The `i`-th child is the tree of the `i`-th move tried. */
  lemma ChildAt(s: GameState, order: Option<Strategy>, h: Horizon, i: nat)
    requires WellFormed(s) && i < |LegalMoves(s)|
    ensures IsLegal(s, ChildMoves(s, order)[i])
    ensures Children(s, order, h)[i] == GameTree(Successor(s, ChildMoves(s, order)[i]), order, h)
  {
    ChildTreesAt(s, order, h, ChildMoves(s, order), i);
  }

  // ---------------------------------------------------------------------------
  // Properties of the trees

  /** Values of finished games lie in {-1, 0, 1}, and every unfinished valid state has a move. */
  lemma {:induction false} ExhaustiveTreeBounded(s: GameState, order: Option<Strategy>)
    requires Valid(s)
    ensures Bounded(GameTree(s, order, Exhaustive), -1, 1)
    decreases |LegalMoves(s)|
  {
    if !s.isTerminal {
      NonTerminalHasMoves(s);
      var ms := ChildMoves(s, order);
      var kids := Children(s, order, Exhaustive);
      forall i | 0 <= i < |kids|
        ensures Bounded(kids[i], -1, 1)
      {
        ChildAt(s, order, Exhaustive, i);
        SuccessorValid(s, ms[i]);
        ExhaustiveTreeBounded(Successor(s, ms[i]), order);
      }
    }
  }

  /** `minimax` returns -1, 0 or 1 on any state reached by play. */
  lemma MinimaxValueRange(s: GameState, order: Option<Strategy>, isMax: bool)
    requires Valid(s)
    ensures -1 <= Value(GameTree(s, order, Exhaustive), isMax) <= 1
  {
    ExhaustiveTreeBounded(s, order);
    BoundedValue(GameTree(s, order, Exhaustive), -1, 1, isMax);
  }

  /** The default ordering leaves `getLegalMoves()` as it is, so its trees are the unordered ones. */
  lemma {:induction false} DefaultOrderingTree(s: GameState, h: Horizon)
    requires WellFormed(s)
    ensures GameTree(s, Some(DefaultOrdering), h) == GameTree(s, None, h)
    decreases |LegalMoves(s)|
  {
    if !IsLeaf(s, h) {
      DefaultOrderingKeepsLegalMoves(s);
      var ms := ChildMoves(s, None);
      assert ChildMoves(s, Some(DefaultOrdering)) == ms;
      var a, b := Children(s, Some(DefaultOrdering), Deeper(h)), Children(s, None, Deeper(h));
      forall i | 0 <= i < |ms|
        ensures a[i] == b[i]
      {
        ChildAt(s, Some(DefaultOrdering), Deeper(h), i);
        ChildAt(s, None, Deeper(h), i);
        DefaultOrderingTree(Successor(s, ms[i]), Deeper(h));
      }
      assert a == b;
    }
  }

  /**
   * The order in which moves are tried does not change the minimax value:
   * each child value of one ordering is a child value of the other.
   */
  lemma {:induction false} ValueOrderIndependent(s: GameState, o1: Option<Strategy>, o2: Option<Strategy>, h: Horizon, isMax: bool)
    requires WellFormed(s)
    ensures Value(GameTree(s, o1, h), isMax) == Value(GameTree(s, o2, h), isMax)
    decreases |LegalMoves(s)|, 2
  {
    if !IsLeaf(s, h) {
      var t1, t2 := GameTree(s, o1, h), GameTree(s, o2, h);
      ChildValuesCovered(s, o1, o2, h, !isMax);
      ChildValuesCovered(s, o2, o1, h, !isMax);
      SameChildValues(t1, t2, isMax);
    }
  }

  /** Where a member of one reordering sits in another. */
  lemma IndexOf(x: Position, a: seq<Position>, b: seq<Position>) returns (j: nat)
    requires x in a && multiset(a) == multiset(b)
    ensures j < |b| && b[j] == x
  {
    assert x in multiset(a);
    assert x in multiset(b);
    j :| 0 <= j < |b| && b[j] == x;
  }

  /** Every child value of the `o1` tree is a child value of the `o2` tree. */
  lemma ChildValuesCovered(s: GameState, o1: Option<Strategy>, o2: Option<Strategy>, h: Horizon, c: bool)
    requires WellFormed(s) && !IsLeaf(s, h)
    ensures CoveredBy(GameTree(s, o1, h), GameTree(s, o2, h), c)
    decreases |LegalMoves(s)|, 1
  {
    var k1, k2 := Children(s, o1, Deeper(h)), Children(s, o2, Deeper(h));
    assert GameTree(s, o1, h) == Node(k1);
    assert GameTree(s, o2, h) == Node(k2);
    forall i | 0 <= i < |k1|
      ensures ValueAmong(Value(k1[i], c), k2, c)
    {
      var j := ChildValueFound(s, o1, o2, Deeper(h), c, i);
    }
  }

  /** The `i`-th child of the `o1` tree has the value of some child of the `o2` tree. */
  lemma ChildValueFound(s: GameState, o1: Option<Strategy>, o2: Option<Strategy>, h: Horizon, c: bool, i: nat)
    returns (j: nat)
    requires WellFormed(s) && i < |LegalMoves(s)|
    ensures j < |LegalMoves(s)|
    ensures Value(Children(s, o1, h)[i], c) == Value(Children(s, o2, h)[j], c)
    decreases |LegalMoves(s)|, 0
  {
    var ms1, ms2 := ChildMoves(s, o1), ChildMoves(s, o2);
    ChildMovesPermutation(s, o1);
    ChildMovesPermutation(s, o2);
    j := IndexOf(ms1[i], ms1, ms2);
    ChildAt(s, o1, h, i);
    ChildAt(s, o2, h, j);
    ValueOrderIndependent(Successor(s, ms1[i]), o1, o2, h, c);
  }

  // ---------------------------------------------------------------------------
  // The root loops of findBestMove

  /** Each root child's minimax value, searched as a minimising node. */
  function MinimaxRootValues(s: GameState): (vals: seq<int>)
    requires WellFormed(s)
    ensures |vals| == |LegalMoves(s)|
  {
    var kids := Children(s, None, Exhaustive);
    seq(|kids|, i requires 0 <= i < |kids| => Value(kids[i], false))
  }

  /** Each root child's alpha-beta value with the fresh full window, as a minimising node. */
  function AlphaBetaRootValues(s: GameState, st: Strategy, h: Horizon): (vals: seq<int>)
    requires WellFormed(s)
    ensures |vals| == |LegalMoves(s)|
  {
    var kids := Children(s, Some(st), h);
    seq(|kids|, i requires 0 <= i < |kids| => AlphaBeta(kids[i], MinInt, MaxInt, false).value)
  }

  /** The i-th root value is the full-window search of the i-th child. */
  lemma AlphaBetaRootValueAt(s: GameState, st: Strategy, h: Horizon, i: nat)
    requires WellFormed(s) && i < |LegalMoves(s)|
    ensures AlphaBetaRootValues(s, st, h)[i] == AlphaBeta(Children(s, Some(st), h)[i], MinInt, MaxInt, false).value
  {
  }

  /** The i-th root value is the minimax value of the i-th child. */
  lemma MinimaxRootValueAt(s: GameState, i: nat)
    requires WellFormed(s) && i < |LegalMoves(s)|
    ensures MinimaxRootValues(s)[i] == Value(Children(s, None, Exhaustive)[i], false)
  {
  }

  /** `MinimaxSolver.findBestMove`: null (None) when no child beats Integer.MIN_VALUE. */
  function MinimaxChoice(s: GameState): Option<Position>
    requires WellFormed(s)
  {
    var i := BestIndex(MinimaxRootValues(s));
    if i < 0 then None else Some(LegalMoves(s)[i])
  }

  /**
   * The root loop of the alpha-beta solvers: the first move, replaced by
   * each later move with a strictly greater value.
   */
  function RootPick(ms: seq<Position>, vals: seq<int>): (p: Position)
    requires |ms| == |vals| > 0
    ensures p in ms
  {
    var i := BestIndex(vals);
    if i < 0 then ms[0] else ms[i]
  }

  /** The alpha-beta solvers' `findBestMove`. */
  function AlphaBetaChoice(s: GameState, st: Strategy, h: Horizon): Position
    requires WellFormed(s) && LegalMoves(s) != []
  {
    RootPick(ChildMoves(s, Some(st)), AlphaBetaRootValues(s, st, h))
  }

  /** When all root values tie, the alpha-beta solvers return the first move of the ordering. */
  lemma AlphaBetaChoiceOnTies(s: GameState, st: Strategy, h: Horizon)
    requires WellFormed(s) && LegalMoves(s) != []
    requires var vals := AlphaBetaRootValues(s, st, h);
      forall j :: 0 <= j < |vals| ==> vals[j] == vals[0]
    ensures AlphaBetaChoice(s, st, h) == ChildMoves(s, Some(st))[0]
  {
    BestIndexOnTies(AlphaBetaRootValues(s, st, h));
  }

  /** Nodes counted over the first `n` root children: their whole trees for minimax. */
  function TreeNodes(kids: seq<Tree>, n: nat): nat
    requires n <= |kids|
  {
    if n == 0 then 0 else TreeNodes(kids, n - 1) + Size(kids[n - 1])
  }

  /** Nodes counted over the first `n` root children by full-window alpha-beta. */
  function SearchedNodes(kids: seq<Tree>, n: nat): nat
    requires n <= |kids|
  {
    if n == 0 then 0 else SearchedNodes(kids, n - 1) + AlphaBeta(kids[n - 1], MinInt, MaxInt, false).visited
  }

  /** Counting one more root child. */
  lemma NodesNext(kids: seq<Tree>, n: nat)
    requires n < |kids|
    ensures TreeNodes(kids, n + 1) == TreeNodes(kids, n) + Size(kids[n])
    ensures SearchedNodes(kids, n + 1) == SearchedNodes(kids, n) + AlphaBeta(kids[n], MinInt, MaxInt, false).visited
  {
  }

  function MinimaxNodes(s: GameState): nat
    requires WellFormed(s)
  {
    var kids := Children(s, None, Exhaustive);
    TreeNodes(kids, |kids|)
  }

  function AlphaBetaNodes(s: GameState, st: Strategy, h: Horizon): nat
    requires WellFormed(s)
  {
    var kids := Children(s, Some(st), h);
    SearchedNodes(kids, |kids|)
  }

  /** `findBestMove` of `MinimaxSolver` returns a legal move exactly when there is one. */
  lemma MinimaxChoiceLegal(s: GameState)
    requires Valid(s)
    ensures MinimaxChoice(s).None? <==> LegalMoves(s) == []
    ensures MinimaxChoice(s).Some? ==> IsLegal(s, MinimaxChoice(s).value)
  {
    var vals := MinimaxRootValues(s);
    BestIndexSpec(vals);
    if LegalMoves(s) != [] {
      var ms := LegalMoves(s);
      var kids := Children(s, None, Exhaustive);
      ChildAt(s, None, Exhaustive, 0);
      SuccessorValid(s, ms[0]);
      MinimaxValueRange(Successor(s, ms[0]), None, false);
      assert vals[0] == Value(kids[0], false);
      assert ms[0] in ms;
    }
    if MinimaxChoice(s).Some? {
      assert MinimaxChoice(s).value in LegalMoves(s);
    }
  }

  /** The alpha-beta solvers return one of the legal moves. */
  lemma AlphaBetaChoiceLegal(s: GameState, st: Strategy, h: Horizon)
    requires WellFormed(s) && LegalMoves(s) != []
    ensures IsLegal(s, AlphaBetaChoice(s, st, h))
  {
    var ms := ChildMoves(s, Some(st));
    var p := AlphaBetaChoice(s, st, h);
    var i :| 0 <= i < |ms| && ms[i] == p;
  }

  /** Full-window alpha-beta gives every root child its minimax value, whatever the ordering. */
  lemma AlphaBetaRootValuesExact(s: GameState, st: Strategy)
    requires Valid(s)
    ensures AlphaBetaRootValues(s, st, Exhaustive) == seq(|LegalMoves(s)|, i requires 0 <= i < |LegalMoves(s)| =>
      Value(Children(s, Some(st), Exhaustive)[i], false))
  {
    var ms := ChildMoves(s, Some(st));
    var kids := Children(s, Some(st), Exhaustive);
    forall i | 0 <= i < |kids|
      ensures AlphaBeta(kids[i], MinInt, MaxInt, false).value == Value(kids[i], false)
    {
      ChildAt(s, Some(st), Exhaustive, i);
      SuccessorValid(s, ms[i]);
      MinimaxValueRange(Successor(s, ms[i]), Some(st), false);
      FullWindowIsMinimax(kids[i], false);
    }
  }

  /**
   * Soundness of `alphaBeta` called with the full window: on any state
   * reached by play and for any move ordering it returns the value
   * `minimax` computes.
   */
  lemma AlphaBetaEqualsMinimax(s: GameState, st: Strategy, isMax: bool)
    requires Valid(s)
    ensures AlphaBeta(GameTree(s, Some(st), Exhaustive), MinInt, MaxInt, isMax).value
         == Value(GameTree(s, None, Exhaustive), isMax)
  {
    MinimaxValueRange(s, Some(st), isMax);
    FullWindowIsMinimax(GameTree(s, Some(st), Exhaustive), isMax);
    ValueOrderIndependent(s, Some(st), None, Exhaustive, isMax);
  }

  /** With the default ordering `AlphaBetaSolver` picks the move `MinimaxSolver` picks. */
  lemma AlphaBetaSameMoveAsMinimax(s: GameState)
    requires Valid(s) && LegalMoves(s) != []
    ensures MinimaxChoice(s) == Some(AlphaBetaChoice(s, DefaultOrdering, Exhaustive))
  {
    AlphaBetaRootValuesExact(s, DefaultOrdering);
    DefaultOrderingKeepsLegalMoves(s);
    var kids := Children(s, None, Exhaustive);
    var ms := LegalMoves(s);
    forall i | 0 <= i < |ms|
      ensures Children(s, Some(DefaultOrdering), Exhaustive)[i] == kids[i]
    {
      ChildAt(s, Some(DefaultOrdering), Exhaustive, i);
      ChildAt(s, None, Exhaustive, i);
      DefaultOrderingTree(Successor(s, ms[i]), Exhaustive);
    }
    assert AlphaBetaRootValues(s, DefaultOrdering, Exhaustive) == MinimaxRootValues(s);
    MinimaxChoiceLegal(s);
  }

  lemma {:induction false} SearchedAtMostTree(kids: seq<Tree>, n: nat)
    requires n <= |kids|
    ensures SearchedNodes(kids, n) <= TreeNodes(kids, n)
  {
    if n > 0 {
      SearchedAtMostTree(kids, n - 1);
      AlphaBetaVisitsAtMostSize(kids[n - 1], MinInt, MaxInt, false);
    }
  }

  /** With the default ordering `AlphaBetaSolver` counts no more nodes than `MinimaxSolver`. */
  lemma AlphaBetaNoMoreNodes(s: GameState)
    requires WellFormed(s)
    ensures AlphaBetaNodes(s, DefaultOrdering, Exhaustive) <= MinimaxNodes(s)
  {
    DefaultOrderingKeepsLegalMoves(s);
    var ms := LegalMoves(s);
    var kids := Children(s, None, Exhaustive);
    forall i | 0 <= i < |ms|
      ensures Children(s, Some(DefaultOrdering), Exhaustive)[i] == kids[i]
    {
      ChildAt(s, Some(DefaultOrdering), Exhaustive, i);
      ChildAt(s, None, Exhaustive, i);
      DefaultOrderingTree(Successor(s, ms[i]), Exhaustive);
    }
    assert Children(s, Some(DefaultOrdering), Exhaustive) == kids;
    SearchedAtMostTree(kids, |kids|);
  }

  // ---------------------------------------------------------------------------
  // The depth-limited solver

  /** The horizon of `DepthLimitedSolver`'s root children: maxDepth plies, scored for the mover at the root. */
  function DepthLimitedHorizon(s: GameState, maxDepth: int): Horizon {
    Plies(maxDepth, s.currentPlayer)
  }

  /** Plain depth-limited minimax at the root children, over the same leaves. */
  function DepthLimitedMinimaxValues(s: GameState, st: Strategy, maxDepth: int): (vals: seq<int>)
    requires WellFormed(s)
    ensures |vals| == |LegalMoves(s)|
  {
    var kids := Children(s, Some(st), DepthLimitedHorizon(s, maxDepth));
    seq(|kids|, i requires 0 <= i < |kids| => Value(kids[i], false))
  }

  /**
   * While every root child's depth-limited minimax value lies strictly
   * between the sentinels, the depth-limited solver picks the move plain
   * depth-limited minimax over the same ordering and leaves would pick.
   */
  lemma DepthLimitedIsMinimax(s: GameState, st: Strategy, maxDepth: int)
    requires WellFormed(s) && LegalMoves(s) != []
    requires forall i :: 0 <= i < |LegalMoves(s)| ==> MinInt < DepthLimitedMinimaxValues(s, st, maxDepth)[i] < MaxInt
    ensures AlphaBetaRootValues(s, st, DepthLimitedHorizon(s, maxDepth)) == DepthLimitedMinimaxValues(s, st, maxDepth)
    ensures AlphaBetaChoice(s, st, DepthLimitedHorizon(s, maxDepth))
         == RootPick(ChildMoves(s, Some(st)), DepthLimitedMinimaxValues(s, st, maxDepth))
  {
    var kids := Children(s, Some(st), DepthLimitedHorizon(s, maxDepth));
    forall i | 0 <= i < |kids|
      ensures AlphaBeta(kids[i], MinInt, MaxInt, false).value == Value(kids[i], false)
    {
      assert DepthLimitedMinimaxValues(s, st, maxDepth)[i] == Value(kids[i], false);
      FullWindowIsMinimax(kids[i], false);
    }
  }

  /** A depth-limited search stops at depth 0 and scores the state for the fixed perspective. */
  lemma DepthZeroIsLeaf(s: GameState, order: Option<Strategy>, p: Player)
    requires WellFormed(s)
    ensures GameTree(s, order, Plies(0, p)) == Leaf(Evaluate(s, p))
  {
  }

  /** Each ply takes one off the depth and keeps the perspective of the root's mover. */
  lemma DeeperKeepsPerspective(s: GameState, order: Option<Strategy>, d: int, p: Player)
    requires WellFormed(s) && !s.isTerminal && d != 0
    ensures GameTree(s, order, Plies(d, p)) == Node(Children(s, order, Plies(d - 1, p)))
  {
  }
}
