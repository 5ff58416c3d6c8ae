/**
 * The three solvers of src/algorithms/, as classes whose only mutable
 * state is the `nodesEvaluated` counter.
 *
 * Each recursive search method is proved against the tree of `GameSearch`:
 * it returns that tree's minimax or alpha-beta value and adds to the
 * counter the number of nodes the tree-level search visits. Each
 * `FindBestMove` resets the counter, runs the root loop and returns what
 * the matching root function of `GameSearch` says. What those functions
 * mean (legal moves, agreement of alpha-beta with minimax, node counts) is
 * proved there.
 */
module Solvers {
  import opened Optional
  import opened Positions
  import opened Players
  import opened GameStates
  import opened Heuristic
  import opened MoveOrdering
  import opened SearchTrees
  import opened GameSearch

  /** The tree of `s` together with the fact that its children follow `ChildMoves`. */
  lemma TreeShape(s: GameState, order: Option<Strategy>, h: Horizon)
    requires WellFormed(s) && !IsLeaf(s, h)
    ensures GameTree(s, order, h) == Node(Children(s, order, Deeper(h)))
    ensures |GameTree(s, order, h).kids| == |ChildMoves(s, order)|
  {
  }

  /** `makeMove` on the i-th move tried lands on the state of the i-th child tree. */
  lemma ChildState(s: GameState, order: Option<Strategy>, h: Horizon, i: nat, r: MoveOutcome)
    requires WellFormed(s) && i < |LegalMoves(s)|
    requires InBounds(s.m, ChildMoves(s, order)[i].row, ChildMoves(s, order)[i].col)
    requires r == TryMove(s, ChildMoves(s, order)[i])
    ensures r.Moved? && r.state == Successor(s, ChildMoves(s, order)[i])
    ensures |LegalMoves(r.state)| < |LegalMoves(s)|
    ensures Children(s, order, h)[i] == GameTree(r.state, order, h)
  {
    ChildAt(s, order, h, i);
  }

  /** The moves a solver iterates over, in bounds and in the order of the tree. */
  lemma MovesInBounds(s: GameState, order: Option<Strategy>)
    requires WellFormed(s)
    ensures forall i :: 0 <= i < |ChildMoves(s, order)| ==>
      InBounds(s.m, ChildMoves(s, order)[i].row, ChildMoves(s, order)[i].col)
  {
  }

  /** `moveOrdering.orderMoves(state, state.getLegalMoves())`: the moves in the order tried. */
  method TriedMoves(st: Strategy, s: GameState) returns (moves: seq<Position>)
    requires WellFormed(s)
    ensures moves == ChildMoves(s, Some(st))
  {
    var legal := GetLegalMoves(s);
    LegalMovesKeyable(st, s);
    moves := OrderMoves(st, s, legal);
  }

  // ---------------------------------------------------------------------------
  // MinimaxSolver

  class MinimaxSolver {
    var nodesEvaluated: int

    constructor ()
      ensures nodesEvaluated == 0
    {
      nodesEvaluated := 0;
    }

    /**
     * `findBestMove`: the first legal move with the greatest minimax value
     * above Integer.MIN_VALUE (None for null); the counter ends at the
     * number of nodes of the root children's trees.
     */
    method FindBestMove(s: GameState) returns (best: Option<Position>)
      requires WellFormed(s)
      modifies this
      ensures best == MinimaxChoice(s)
      ensures nodesEvaluated == MinimaxNodes(s)
    {
      nodesEvaluated := 0;
      var moves := GetLegalMoves(s);
      best := RootLoop(s, moves);
    }

    /** The loop of `findBestMove`: the running best value, its move, and the counter. */
    method RootLoop(s: GameState, moves: seq<Position>) returns (best: Option<Position>)
      requires WellFormed(s) && moves == LegalMoves(s)
      modifies this
      ensures var (_, bestIndex) := BestSoFar(MinimaxRootValues(s), |moves|);
        best == if bestIndex < 0 then None else Some(moves[bestIndex])
      ensures nodesEvaluated == old(nodesEvaluated) + TreeNodes(Children(s, None, Exhaustive), |moves|)
    {
      ghost var kids := Children(s, None, Exhaustive);
      ghost var vals := MinimaxRootValues(s);
      var bestValue := MinInt;
      ghost var bestIndex := -1;
      best := None;
      var i := 0;
      while i < |moves|
        invariant 0 <= i <= |moves|
        invariant bestValue == BestSoFar(vals, i).0 && bestIndex == BestSoFar(vals, i).1
        invariant best == if bestIndex < 0 then None else Some(moves[bestIndex])
        invariant nodesEvaluated == old(nodesEvaluated) + TreeNodes(kids, i)
      {
        var move := moves[i];
        var moveValue := SearchChild(s, i, move, false);
        MinimaxRootValueAt(s, i);
        BestSoFarNext(vals, i);
        NodesNext(kids, i);
        if moveValue > bestValue {
          bestValue := moveValue;
          best := Some(move);
          bestIndex := i;
        }
        i := i + 1;
      }
    }

    /** `minimax`: the value of the exhaustive tree in row-major order, counting each of its nodes. */
    method Minimax(s: GameState, isMax: bool) returns (v: int)
      requires WellFormed(s)
      modifies this
      ensures v == Value(GameTree(s, None, Exhaustive), isMax)
      ensures nodesEvaluated == old(nodesEvaluated) + Size(GameTree(s, None, Exhaustive))
      decreases |LegalMoves(s)|, 1
    {
      nodesEvaluated := nodesEvaluated + 1;
      if s.isTerminal {
        return Utility(s);
      }
      ghost var t := GameTree(s, None, Exhaustive);
      TreeShape(s, None, Exhaustive);
      var moves := GetLegalMoves(s);
      var i := 0;
      if isMax {
        var maxEval := MinInt;
        while i < |moves|
          invariant 0 <= i <= |moves|
          invariant maxEval == Fold(t, true, i)
          invariant nodesEvaluated == old(nodesEvaluated) + 1 + SizeFold(t, i)
        {
          var eval := SearchChild(s, i, moves[i], false);
          maxEval := Max(maxEval, eval);
          i := i + 1;
        }
        return maxEval;
      } else {
        var minEval := MaxInt;
        while i < |moves|
          invariant 0 <= i <= |moves|
          invariant minEval == Fold(t, false, i)
          invariant nodesEvaluated == old(nodesEvaluated) + 1 + SizeFold(t, i)
        {
          var eval := SearchChild(s, i, moves[i], true);
          minEval := Min(minEval, eval);
          i := i + 1;
        }
        return minEval;
      }
    }

    /** `makeMove` with the i-th legal move, then `minimax` on the new state. */
    method SearchChild(s: GameState, i: nat, move: Position, isMax: bool) returns (v: int)
      requires WellFormed(s) && i < |LegalMoves(s)| && move == ChildMoves(s, None)[i]
      modifies this
      ensures v == Value(Children(s, None, Exhaustive)[i], isMax)
      ensures nodesEvaluated == old(nodesEvaluated) + Size(Children(s, None, Exhaustive)[i])
      decreases |LegalMoves(s)|, 0
    {
      MovesInBounds(s, None);
      var newState := MakeMove(s, move);
      ChildState(s, None, Exhaustive, i, newState);
      v := Minimax(newState.state, isMax);
    }
  }

  // ---------------------------------------------------------------------------
  // AlphaBetaSolver

  class AlphaBetaSolver {
    var nodesEvaluated: int
    const moveOrdering: Strategy

    /** The no-argument constructor: the default ordering. */
    constructor WithDefaultOrdering()
      ensures moveOrdering == DefaultOrdering && nodesEvaluated == 0
    {
      moveOrdering := DefaultOrdering;
      nodesEvaluated := 0;
    }

    constructor (moveOrdering: Strategy)
      ensures this.moveOrdering == moveOrdering && nodesEvaluated == 0
    {
      this.moveOrdering := moveOrdering;
      nodesEvaluated := 0;
    }

    /**
     * `findBestMove`: the first ordered move, replaced by each later one
     * with a strictly greater full-window alpha-beta value; the counter
     * ends at the nodes those searches visit. The source reads the first
     * ordered move unconditionally, so there must be one.
     */
    method FindBestMove(s: GameState) returns (best: Position)
      requires WellFormed(s) && LegalMoves(s) != []
      modifies this
      ensures best == AlphaBetaChoice(s, moveOrdering, Exhaustive)
      ensures nodesEvaluated == AlphaBetaNodes(s, moveOrdering, Exhaustive)
    {
      nodesEvaluated := 0;
      var moves := TriedMoves(moveOrdering, s);
      best := RootLoop(s, moves);
    }

    /** The loop of `findBestMove`: the running best value, its move, and the counter. */
    method RootLoop(s: GameState, moves: seq<Position>) returns (best: Position)
      requires WellFormed(s) && moves == ChildMoves(s, Some(moveOrdering)) && moves != []
      modifies this
      ensures var (_, bestIndex) := BestSoFar(AlphaBetaRootValues(s, moveOrdering, Exhaustive), |moves|);
        best == if bestIndex < 0 then moves[0] else moves[bestIndex]
      ensures nodesEvaluated == old(nodesEvaluated) + SearchedNodes(Children(s, Some(moveOrdering), Exhaustive), |moves|)
    {
      ghost var h := Exhaustive;
      ghost var kids := Children(s, Some(moveOrdering), h);
      ghost var vals := AlphaBetaRootValues(s, moveOrdering, h);
      var bestValue := MinInt;
      ghost var bestIndex := -1;
      best := moves[0];
      var i := 0;
      while i < |moves|
        invariant 0 <= i <= |moves|
        invariant bestValue == BestSoFar(vals, i).0 && bestIndex == BestSoFar(vals, i).1
        invariant best == if bestIndex < 0 then moves[0] else moves[bestIndex]
        invariant nodesEvaluated == old(nodesEvaluated) + SearchedNodes(kids, i)
      {
        var move := moves[i];
        var moveValue := SearchChild(s, i, move, MinInt, MaxInt, false);
        AlphaBetaRootValueAt(s, moveOrdering, h, i);
        BestSoFarNext(vals, i);
        NodesNext(kids, i);
        if moveValue > bestValue {
          bestValue := moveValue;
          best := move;
          bestIndex := i;
        }
        i := i + 1;
      }
    }

    /**
     * `alphaBeta`: the tree-level alpha-beta search over the exhaustive
     * tree in this solver's ordering, its value and its node count.
     */
    method AlphaBeta(s: GameState, alpha: int, beta: int, isMax: bool) returns (v: int)
      requires WellFormed(s)
      modifies this
      ensures var o := SearchTrees.AlphaBeta(GameTree(s, Some(moveOrdering), Exhaustive), alpha, beta, isMax);
        v == o.value && nodesEvaluated == old(nodesEvaluated) + o.visited
      decreases |LegalMoves(s)|, 2
    {
      nodesEvaluated := nodesEvaluated + 1;
      if s.isTerminal {
        return Utility(s);
      }
      TreeShape(s, Some(moveOrdering), Exhaustive);
      var moves := TriedMoves(moveOrdering, s);
      if isMax {
        v := MaxLoop(s, moves, alpha, beta);
      } else {
        v := MinLoop(s, moves, alpha, beta);
      }
    }

    /**
     * The maximising loop of `alphaBeta`: each child searched with the
     * current window, alpha raised to the best value so far, stopping once
     * beta <= alpha. The node counted on entry is not added here.
     */
    method MaxLoop(s: GameState, moves: seq<Position>, alpha: int, beta: int) returns (maxEval: int)
      requires WellFormed(s) && moves == ChildMoves(s, Some(moveOrdering))
      modifies this
      ensures var o := ABFold(Node(Children(s, Some(moveOrdering), Exhaustive)), alpha, beta, true, 0, MinInt, 1);
        maxEval == o.value && nodesEvaluated == old(nodesEvaluated) + o.visited - 1
      decreases |LegalMoves(s)|, 1
    {
      ghost var t := Node(Children(s, Some(moveOrdering), Exhaustive));
      ghost var count: nat := 1;
      maxEval := MinInt;
      var a := alpha;
      var i := 0;
      while i < |moves|
        invariant 0 <= i <= |moves|
        invariant nodesEvaluated == old(nodesEvaluated) + count - 1
        invariant ABFold(t, a, beta, true, i, maxEval, count) == ABFold(t, alpha, beta, true, 0, MinInt, 1)
      {
        ghost var before := nodesEvaluated;
        var eval := SearchChild(s, i, moves[i], a, beta, false);
        ABFoldMaxStep(t, a, beta, i, maxEval, count, eval, nodesEvaluated - before);
        count := count + (nodesEvaluated - before);
        maxEval := Max(maxEval, eval);
        a := Max(a, eval);
        if beta <= a {
          break;
        }
        i := i + 1;
      }
    }

    /** The minimising loop of `alphaBeta`, lowering beta and stopping once beta <= alpha. */
    method MinLoop(s: GameState, moves: seq<Position>, alpha: int, beta: int) returns (minEval: int)
      requires WellFormed(s) && moves == ChildMoves(s, Some(moveOrdering))
      modifies this
      ensures var o := ABFold(Node(Children(s, Some(moveOrdering), Exhaustive)), alpha, beta, false, 0, MaxInt, 1);
        minEval == o.value && nodesEvaluated == old(nodesEvaluated) + o.visited - 1
      decreases |LegalMoves(s)|, 1
    {
      ghost var t := Node(Children(s, Some(moveOrdering), Exhaustive));
      ghost var count: nat := 1;
      minEval := MaxInt;
      var b := beta;
      var i := 0;
      while i < |moves|
        invariant 0 <= i <= |moves|
        invariant nodesEvaluated == old(nodesEvaluated) + count - 1
        invariant ABFold(t, alpha, b, false, i, minEval, count) == ABFold(t, alpha, beta, false, 0, MaxInt, 1)
      {
        ghost var before := nodesEvaluated;
        var eval := SearchChild(s, i, moves[i], alpha, b, true);
        ABFoldMinStep(t, alpha, b, i, minEval, count, eval, nodesEvaluated - before);
        count := count + (nodesEvaluated - before);
        minEval := Min(minEval, eval);
        b := Min(b, eval);
        if b <= alpha {
          break;
        }
        i := i + 1;
      }
    }

    /** `makeMove` with the i-th ordered move, then `alphaBeta` on the new state. */
    method SearchChild(s: GameState, i: nat, move: Position, alpha: int, beta: int, isMax: bool) returns (v: int)
      requires WellFormed(s) && i < |LegalMoves(s)| && move == ChildMoves(s, Some(moveOrdering))[i]
      modifies this
      ensures var o := SearchTrees.AlphaBeta(Children(s, Some(moveOrdering), Exhaustive)[i], alpha, beta, isMax);
        v == o.value && nodesEvaluated == old(nodesEvaluated) + o.visited
      decreases |LegalMoves(s)|, 0
    {
      MovesInBounds(s, Some(moveOrdering));
      var newState := MakeMove(s, move);
      ChildState(s, Some(moveOrdering), Exhaustive, i, newState);
      v := AlphaBeta(newState.state, alpha, beta, isMax);
    }
  }

  // ---------------------------------------------------------------------------
  // DepthLimitedSolver

  class DepthLimitedSolver {
    const maxDepth: int
    const moveOrdering: Strategy
    var nodesEvaluated: int

    /** The one-argument constructor: the default ordering. */
    constructor WithDefaultOrdering(maxDepth: int)
      ensures this.maxDepth == maxDepth && moveOrdering == DefaultOrdering && nodesEvaluated == 0
    {
      this.maxDepth := maxDepth;
      moveOrdering := DefaultOrdering;
      nodesEvaluated := 0;
    }

    constructor (maxDepth: int, moveOrdering: Strategy)
      ensures this.maxDepth == maxDepth && this.moveOrdering == moveOrdering && nodesEvaluated == 0
    {
      this.maxDepth := maxDepth;
      this.moveOrdering := moveOrdering;
      nodesEvaluated := 0;
    }

    /**
     * `findBestMove`: as in `AlphaBetaSolver`, each root child searched to
     * `maxDepth` plies and scored for the player to move at the root.
     */
    method FindBestMove(s: GameState) returns (best: Position)
      requires WellFormed(s) && LegalMoves(s) != []
      modifies this
      ensures best == AlphaBetaChoice(s, moveOrdering, DepthLimitedHorizon(s, maxDepth))
      ensures nodesEvaluated == AlphaBetaNodes(s, moveOrdering, DepthLimitedHorizon(s, maxDepth))
    {
      nodesEvaluated := 0;
      var moves := TriedMoves(moveOrdering, s);
      best := RootLoop(s, moves);
    }

    /** The loop of `findBestMove`, scoring every root child for the player to move at the root. */
    method RootLoop(s: GameState, moves: seq<Position>) returns (best: Position)
      requires WellFormed(s) && moves == ChildMoves(s, Some(moveOrdering)) && moves != []
      modifies this
      ensures var (_, bestIndex) := BestSoFar(AlphaBetaRootValues(s, moveOrdering, DepthLimitedHorizon(s, maxDepth)), |moves|);
        best == if bestIndex < 0 then moves[0] else moves[bestIndex]
      ensures nodesEvaluated ==
        old(nodesEvaluated) + SearchedNodes(Children(s, Some(moveOrdering), DepthLimitedHorizon(s, maxDepth)), |moves|)
    {
      var maximizingPlayer := s.currentPlayer;
      ghost var h := DepthLimitedHorizon(s, maxDepth);
      assert h == Plies(maxDepth, maximizingPlayer);
      ghost var kids := Children(s, Some(moveOrdering), h);
      ghost var vals := AlphaBetaRootValues(s, moveOrdering, h);
      var bestValue := MinInt;
      ghost var bestIndex := -1;
      best := moves[0];
      var i := 0;
      while i < |moves|
        invariant 0 <= i <= |moves|
        invariant bestValue == BestSoFar(vals, i).0 && bestIndex == BestSoFar(vals, i).1
        invariant best == if bestIndex < 0 then moves[0] else moves[bestIndex]
        invariant nodesEvaluated == old(nodesEvaluated) + SearchedNodes(kids, i)
      {
        var move := moves[i];
        var moveValue := SearchChild(s, i, move, maxDepth, MinInt, MaxInt, false, maximizingPlayer);
        AlphaBetaRootValueAt(s, moveOrdering, h, i);
        BestSoFarNext(vals, i);
        NodesNext(kids, i);
        if moveValue > bestValue {
          bestValue := moveValue;
          best := move;
          bestIndex := i;
        }
        i := i + 1;
      }
    }

    /**
     * `alphaBeta` with a depth: the tree-level alpha-beta search over the
     * tree cut at `depth` plies, whose leaves are scored by the evaluator
     * for `originalPlayer`; its value and its node count.
     */
    method AlphaBeta(s: GameState, depth: int, alpha: int, beta: int, isMax: bool, originalPlayer: Player)
      returns (v: int)
      requires WellFormed(s)
      modifies this
      ensures var o := SearchTrees.AlphaBeta(GameTree(s, Some(moveOrdering), Plies(depth, originalPlayer)), alpha, beta, isMax);
        v == o.value && nodesEvaluated == old(nodesEvaluated) + o.visited
      decreases |LegalMoves(s)|, 2
    {
      nodesEvaluated := nodesEvaluated + 1;
      if s.isTerminal || depth == 0 {
        v := EvaluateState(s, originalPlayer);
        return;
      }
      TreeShape(s, Some(moveOrdering), Plies(depth, originalPlayer));
      var moves := TriedMoves(moveOrdering, s);
      if isMax {
        v := MaxLoop(s, moves, depth - 1, alpha, beta, originalPlayer);
      } else {
        v := MinLoop(s, moves, depth - 1, alpha, beta, originalPlayer);
      }
    }

    /**
     * The maximising loop of `alphaBeta`, each child searched with `depth`
     * plies left. The node counted on entry is not added here.
     */
    method MaxLoop(s: GameState, moves: seq<Position>, depth: int, alpha: int, beta: int, originalPlayer: Player)
      returns (maxEval: int)
      requires WellFormed(s) && moves == ChildMoves(s, Some(moveOrdering))
      modifies this
      ensures var o := ABFold(Node(Children(s, Some(moveOrdering), Plies(depth, originalPlayer))),
                              alpha, beta, true, 0, MinInt, 1);
        maxEval == o.value && nodesEvaluated == old(nodesEvaluated) + o.visited - 1
      decreases |LegalMoves(s)|, 1
    {
      ghost var t := Node(Children(s, Some(moveOrdering), Plies(depth, originalPlayer)));
      ghost var count: nat := 1;
      maxEval := MinInt;
      var a := alpha;
      var i := 0;
      while i < |moves|
        invariant 0 <= i <= |moves|
        invariant nodesEvaluated == old(nodesEvaluated) + count - 1
        invariant ABFold(t, a, beta, true, i, maxEval, count) == ABFold(t, alpha, beta, true, 0, MinInt, 1)
      {
        ghost var before := nodesEvaluated;
        var eval := SearchChild(s, i, moves[i], depth, a, beta, false, originalPlayer);
        ABFoldMaxStep(t, a, beta, i, maxEval, count, eval, nodesEvaluated - before);
        count := count + (nodesEvaluated - before);
        maxEval := Max(maxEval, eval);
        a := Max(a, eval);
        if beta <= a {
          break;
        }
        i := i + 1;
      }
    }

    /** The minimising loop of `alphaBeta`, each child searched with `depth` plies left. */
    method MinLoop(s: GameState, moves: seq<Position>, depth: int, alpha: int, beta: int, originalPlayer: Player)
      returns (minEval: int)
      requires WellFormed(s) && moves == ChildMoves(s, Some(moveOrdering))
      modifies this
      ensures var o := ABFold(Node(Children(s, Some(moveOrdering), Plies(depth, originalPlayer))),
                              alpha, beta, false, 0, MaxInt, 1);
        minEval == o.value && nodesEvaluated == old(nodesEvaluated) + o.visited - 1
      decreases |LegalMoves(s)|, 1
    {
      ghost var t := Node(Children(s, Some(moveOrdering), Plies(depth, originalPlayer)));
      ghost var count: nat := 1;
      minEval := MaxInt;
      var b := beta;
      var i := 0;
      while i < |moves|
        invariant 0 <= i <= |moves|
        invariant nodesEvaluated == old(nodesEvaluated) + count - 1
        invariant ABFold(t, alpha, b, false, i, minEval, count) == ABFold(t, alpha, beta, false, 0, MaxInt, 1)
      {
        ghost var before := nodesEvaluated;
        var eval := SearchChild(s, i, moves[i], depth, alpha, b, true, originalPlayer);
        ABFoldMinStep(t, alpha, b, i, minEval, count, eval, nodesEvaluated - before);
        count := count + (nodesEvaluated - before);
        minEval := Min(minEval, eval);
        b := Min(b, eval);
        if b <= alpha {
          break;
        }
        i := i + 1;
      }
    }

    /** `makeMove` with the i-th ordered move, then `alphaBeta` on the new state with `depth` plies left. */
    method SearchChild(s: GameState, i: nat, move: Position, depth: int, alpha: int, beta: int, isMax: bool,
                       originalPlayer: Player) returns (v: int)
      requires WellFormed(s) && i < |LegalMoves(s)| && move == ChildMoves(s, Some(moveOrdering))[i]
      modifies this
      ensures var o := SearchTrees.AlphaBeta(Children(s, Some(moveOrdering), Plies(depth, originalPlayer))[i],
                                             alpha, beta, isMax);
        v == o.value && nodesEvaluated == old(nodesEvaluated) + o.visited
      decreases |LegalMoves(s)|, 0
    {
      MovesInBounds(s, Some(moveOrdering));
      var newState := MakeMove(s, move);
      ChildState(s, Some(moveOrdering), Plies(depth, originalPlayer), i, newState);
      v := AlphaBeta(newState.state, depth, alpha, beta, isMax, originalPlayer);
    }
  }
}
