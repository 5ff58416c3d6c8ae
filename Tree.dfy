/**
 * Game trees and the three searches run over them (src/algorithms/).
 *
 * A `Tree` is what a solver explores below one state: a leaf carries the
 * score the solver returns there, a node the subtrees of its moves in the
 * order the solver visits them. `Value` is `minimax`; `AlphaBeta` is the
 * `alphaBeta` of both alpha-beta solvers, returning its value together with
 * the number of nodes it counts. The sentinels are Java's
 * Integer.MIN_VALUE and Integer.MAX_VALUE.
 */
module SearchTrees {
  datatype Tree = Leaf(score: int) | Node(kids: seq<Tree>)

  const MinInt: int := -2147483648
  const MaxInt: int := 2147483647

  function Max(a: int, b: int): int { if a >= b then a else b }
  function Min(a: int, b: int): int { if a <= b then a else b }

  // ---------------------------------------------------------------------------
  // Minimax

  /** The minimax value of `t` with the maximiser (isMax) or minimiser to move. */
  function Value(t: Tree, isMax: bool): int
    decreases t, 1
  {
    match t
    case Leaf(v) => v
    case Node(kids) => Fold(t, isMax, |kids|)
  }

  /** `maxEval` (or `minEval`) after the loop has seen the first `i` children. */
  function Fold(t: Tree, isMax: bool, i: nat): int
    requires t.Node? && i <= |t.kids|
    decreases t, 0, i
  {
    if i == 0 then (if isMax then MinInt else MaxInt)
    else if isMax then Max(Fold(t, isMax, i - 1), Value(t.kids[i - 1], false))
    else Min(Fold(t, isMax, i - 1), Value(t.kids[i - 1], true))
  }

  /** How many nodes `minimax` counts: every node of the tree. */
  function Size(t: Tree): (n: nat)
    ensures n >= 1
    decreases t, 1
  {
    match t
    case Leaf(_) => 1
    case Node(kids) => 1 + SizeFold(t, |kids|)
  }

  function SizeFold(t: Tree, i: nat): nat
    requires t.Node? && i <= |t.kids|
    decreases t, 0, i
  {
    if i == 0 then 0 else SizeFold(t, i - 1) + Size(t.kids[i - 1])
  }

  /** The running maximum never drops, and it is at least each child seen. */
  lemma {:induction false} FoldMonotone(t: Tree, isMax: bool, i: nat, j: nat)
    requires t.Node? && i <= j <= |t.kids|
    ensures isMax ==> Fold(t, isMax, i) <= Fold(t, isMax, j)
    ensures !isMax ==> Fold(t, isMax, i) >= Fold(t, isMax, j)
    ensures i < j && isMax ==> Value(t.kids[i], false) <= Fold(t, isMax, j)
    ensures i < j && !isMax ==> Value(t.kids[i], true) >= Fold(t, isMax, j)
    decreases j
  {
    if i < j {
      FoldMonotone(t, isMax, i, j - 1);
    }
  }

  /** The running maximum is the sentinel or a child's value, and never beyond the sentinel. */
  lemma {:induction false} FoldAttained(t: Tree, isMax: bool, n: nat)
    requires t.Node? && n <= |t.kids|
    ensures isMax ==> MinInt <= Fold(t, isMax, n)
    ensures !isMax ==> Fold(t, isMax, n) <= MaxInt
    ensures Fold(t, isMax, n) == (if isMax then MinInt else MaxInt)
         || exists i :: 0 <= i < n && Fold(t, isMax, n) == Value(t.kids[i], !isMax)
    decreases n
  {
    if n > 0 {
      FoldAttained(t, isMax, n - 1);
    }
  }

  /** `v` is the value of one of `kids`. */
  predicate ValueAmong(v: int, kids: seq<Tree>, childIsMax: bool) {
    exists j :: 0 <= j < |kids| && Value(kids[j], childIsMax) == v
  }

  /** Every child value of `t1` is also a child value of `t2`. */
  predicate CoveredBy(t1: Tree, t2: Tree, childIsMax: bool) {
    t1.Node? && t2.Node? &&
    forall i :: 0 <= i < |t1.kids| ==> ValueAmong(Value(t1.kids[i], childIsMax), t2.kids, childIsMax)
  }

  lemma FoldBelow(t1: Tree, t2: Tree, isMax: bool)
    requires CoveredBy(t2, t1, !isMax)
    ensures isMax ==> Value(t2, isMax) <= Value(t1, isMax)
    ensures !isMax ==> Value(t2, isMax) >= Value(t1, isMax)
  {
    FoldAttained(t1, isMax, |t1.kids|);
    FoldAttained(t2, isMax, |t2.kids|);
    if Value(t2, isMax) != (if isMax then MinInt else MaxInt) {
      var j :| 0 <= j < |t2.kids| && Value(t2, isMax) == Value(t2.kids[j], !isMax);
      var i :| 0 <= i < |t1.kids| && Value(t2.kids[j], !isMax) == Value(t1.kids[i], !isMax);
      FoldMonotone(t1, isMax, i, |t1.kids|);
    }
  }

  /** Two nodes with the same set of child values have the same value. */
  lemma SameChildValues(t1: Tree, t2: Tree, isMax: bool)
    requires CoveredBy(t1, t2, !isMax) && CoveredBy(t2, t1, !isMax)
    ensures Value(t1, isMax) == Value(t2, isMax)
  {
    FoldBelow(t1, t2, isMax);
    FoldBelow(t2, t1, isMax);
  }

  // ---------------------------------------------------------------------------
  // Alpha-beta

  datatype Outcome = Outcome(value: int, visited: nat)

  /** `alphaBeta(t, alpha, beta, isMax)`: its result and the nodes it counts. */
  function AlphaBeta(t: Tree, alpha: int, beta: int, isMax: bool): (o: Outcome)
    ensures o.visited >= 1
    decreases t, 1
  {
    match t
    case Leaf(v) => Outcome(v, 1)
    case Node(_) => ABFold(t, alpha, beta, isMax, 0, if isMax then MinInt else MaxInt, 1)
  }

  /**
   * The loop of `alphaBeta` from child `i` on, with the current window, the
   * best value so far and the nodes counted so far; it stops after the first
   * child that makes beta <= alpha.
   */
  function ABFold(t: Tree, alpha: int, beta: int, isMax: bool, i: nat, best: int, count: nat): (o: Outcome)
    requires t.Node? && i <= |t.kids|
    ensures o.visited >= count
    decreases t, 0, |t.kids| - i
  {
    if i == |t.kids| then Outcome(best, count)
    else
      var o := AlphaBeta(t.kids[i], alpha, beta, !isMax);
      var best' := if isMax then Max(best, o.value) else Min(best, o.value);
      var alpha' := if isMax then Max(alpha, o.value) else alpha;
      var beta' := if isMax then beta else Min(beta, o.value);
      if beta' <= alpha' then Outcome(best', count + o.visited)
      else ABFold(t, alpha', beta', isMax, i + 1, best', count + o.visited)
  }

  /** One maximising step of `ABFold`, given the outcome (v, n) of child `i`. */
  lemma ABFoldMaxStep(t: Tree, alpha: int, beta: int, i: nat, best: int, count: nat, v: int, n: nat)
    requires t.Node? && i < |t.kids| && AlphaBeta(t.kids[i], alpha, beta, false) == Outcome(v, n)
    ensures beta <= Max(alpha, v) ==> ABFold(t, alpha, beta, true, i, best, count) == Outcome(Max(best, v), count + n)
    ensures Max(alpha, v) < beta ==>
      ABFold(t, alpha, beta, true, i, best, count) == ABFold(t, Max(alpha, v), beta, true, i + 1, Max(best, v), count + n)
  {
  }

  /** One minimising step of `ABFold`, given the outcome (v, n) of child `i`. */
  lemma ABFoldMinStep(t: Tree, alpha: int, beta: int, i: nat, best: int, count: nat, v: int, n: nat)
    requires t.Node? && i < |t.kids| && AlphaBeta(t.kids[i], alpha, beta, true) == Outcome(v, n)
    ensures Min(beta, v) <= alpha ==> ABFold(t, alpha, beta, false, i, best, count) == Outcome(Min(best, v), count + n)
    ensures alpha < Min(beta, v) ==>
      ABFold(t, alpha, beta, false, i, best, count) == ABFold(t, alpha, Min(beta, v), false, i + 1, Min(best, v), count + n)
  {
  }

  /**
   * The fail-soft window property relating the true value v and the
   * returned r of a search with window (alpha, beta): a result at or below
   * alpha bounds v from above, one at or above beta bounds it from below,
   * and one strictly inside is exact.
   */
  predicate WindowSound(v: int, r: int, alpha: int, beta: int) {
    && (r <= alpha ==> v <= r)
    && (r >= beta ==> v >= r)
    && (alpha < r < beta ==> v == r)
  }

  lemma {:induction false} AlphaBetaWindow(t: Tree, alpha: int, beta: int, isMax: bool)
    requires MinInt <= alpha < beta <= MaxInt
    ensures WindowSound(Value(t, isMax), AlphaBeta(t, alpha, beta, isMax).value, alpha, beta)
    decreases t, 1
  {
    if t.Node? {
      if isMax {
        MaxFoldWindow(t, alpha, alpha, beta, 0, MinInt, 1);
      } else {
        MinFoldWindow(t, alpha, beta, beta, 0, MaxInt, 1);
      }
    }
  }

  /**
   * The loop of a maximising node keeps alpha = max(alpha0, best) < beta,
   * and best bounds the true running maximum, matching it once above alpha0.
   */
  lemma {:induction false} MaxFoldWindow(t: Tree, alpha0: int, alpha: int, beta: int, i: nat, best: int, count: nat)
    requires t.Node? && i <= |t.kids|
    requires MinInt <= alpha0 < beta <= MaxInt
    requires alpha == Max(alpha0, best) && alpha < beta
    requires Fold(t, true, i) <= best
    requires alpha0 < best ==> Fold(t, true, i) == best
    ensures WindowSound(Fold(t, true, |t.kids|), ABFold(t, alpha, beta, true, i, best, count).value, alpha0, beta)
    decreases t, 0, |t.kids| - i
  {
    if i < |t.kids| {
      var kid := t.kids[i];
      var o := AlphaBeta(kid, alpha, beta, false);
      AlphaBetaWindow(kid, alpha, beta, false);
      var best' := Max(best, o.value);
      var alpha' := Max(alpha, o.value);
      if beta <= alpha' {
        FoldMonotone(t, true, i, |t.kids|);
      } else {
        MaxFoldWindow(t, alpha0, alpha', beta, i + 1, best', count + o.visited);
      }
    }
  }

  /** The mirror image for a minimising node: beta = min(beta0, best) > alpha. */
  lemma {:induction false} MinFoldWindow(t: Tree, alpha: int, beta0: int, beta: int, i: nat, best: int, count: nat)
    requires t.Node? && i <= |t.kids|
    requires MinInt <= alpha < beta0 <= MaxInt
    requires beta == Min(beta0, best) && alpha < beta
    requires Fold(t, false, i) >= best
    requires best < beta0 ==> Fold(t, false, i) == best
    ensures WindowSound(Fold(t, false, |t.kids|), ABFold(t, alpha, beta, false, i, best, count).value, alpha, beta0)
    decreases t, 0, |t.kids| - i
  {
    if i < |t.kids| {
      var kid := t.kids[i];
      var o := AlphaBeta(kid, alpha, beta, true);
      AlphaBetaWindow(kid, alpha, beta, true);
      var best' := Min(best, o.value);
      var beta' := Min(beta, o.value);
      if beta' <= alpha {
        FoldMonotone(t, false, i, |t.kids|);
      } else {
        MinFoldWindow(t, alpha, beta0, beta', i + 1, best', count + o.visited);
      }
    }
  }

  /** With the full window, alpha-beta returns the minimax value whenever that lies strictly between the sentinels. */
  lemma FullWindowIsMinimax(t: Tree, isMax: bool)
    requires MinInt < Value(t, isMax) < MaxInt
    ensures AlphaBeta(t, MinInt, MaxInt, isMax).value == Value(t, isMax)
  {
    AlphaBetaWindow(t, MinInt, MaxInt, isMax);
  }

  /** Alpha-beta never counts more nodes than the tree has, which is what minimax counts. */
  lemma {:induction false} AlphaBetaVisitsAtMostSize(t: Tree, alpha: int, beta: int, isMax: bool)
    ensures AlphaBeta(t, alpha, beta, isMax).visited <= Size(t)
    decreases t, 1
  {
    if t.Node? {
      ABFoldVisits(t, alpha, beta, isMax, 0, if isMax then MinInt else MaxInt, 1);
    }
  }

  lemma {:induction false} ABFoldVisits(t: Tree, alpha: int, beta: int, isMax: bool, i: nat, best: int, count: nat)
    requires t.Node? && i <= |t.kids|
    ensures ABFold(t, alpha, beta, isMax, i, best, count).visited
         <= count + SizeFold(t, |t.kids|) - SizeFold(t, i)
    decreases t, 0, |t.kids| - i
  {
    if i < |t.kids| {
      var o := AlphaBeta(t.kids[i], alpha, beta, !isMax);
      AlphaBetaVisitsAtMostSize(t.kids[i], alpha, beta, !isMax);
      var best' := if isMax then Max(best, o.value) else Min(best, o.value);
      var alpha' := if isMax then Max(alpha, o.value) else alpha;
      var beta' := if isMax then beta else Min(beta, o.value);
      SizeFoldMonotone(t, i + 1, |t.kids|);
      if beta' > alpha' {
        ABFoldVisits(t, alpha', beta', isMax, i + 1, best', count + o.visited);
      }
    }
  }

  lemma {:induction false} SizeFoldMonotone(t: Tree, i: nat, j: nat)
    requires t.Node? && i <= j <= |t.kids|
    ensures SizeFold(t, i) <= SizeFold(t, j)
    decreases j
  {
    if i < j {
      SizeFoldMonotone(t, i, j - 1);
    }
  }

  // ---------------------------------------------------------------------------
  // Trees whose leaves lie in a range

  /** Every leaf lies in [lo, hi] and every node has a child. */
  predicate Bounded(t: Tree, lo: int, hi: int)
    decreases t
  {
    match t
    case Leaf(v) => lo <= v <= hi
    case Node(kids) => |kids| > 0 && forall i :: 0 <= i < |kids| ==> Bounded(kids[i], lo, hi)
  }

  lemma {:induction false} BoundedValue(t: Tree, lo: int, hi: int, isMax: bool)
    requires Bounded(t, lo, hi) && MinInt <= lo && hi <= MaxInt
    ensures lo <= Value(t, isMax) <= hi
    decreases t, 1
  {
    if t.Node? {
      BoundedFold(t, lo, hi, isMax, |t.kids|);
    }
  }

  lemma {:induction false} BoundedFold(t: Tree, lo: int, hi: int, isMax: bool, i: nat)
    requires Bounded(t, lo, hi) && t.Node? && 1 <= i <= |t.kids| && MinInt <= lo && hi <= MaxInt
    ensures lo <= Fold(t, isMax, i) <= hi
    decreases t, 0, i
  {
    BoundedValue(t.kids[i - 1], lo, hi, !isMax);
    if i > 1 {
      BoundedFold(t, lo, hi, isMax, i - 1);
    }
  }

  // ---------------------------------------------------------------------------
  // The root loop of findBestMove

  /**
   * `(bestValue, index of bestMove)` after the root loop has seen the first
   * `n` child values; the index is -1 while no value beat the initial
   * Integer.MIN_VALUE. Replacement needs a strictly greater value.
   */
  function BestSoFar(vals: seq<int>, n: nat): (r: (int, int))
    requires n <= |vals|
    ensures -1 <= r.1 < n
  {
    if n == 0 then (MinInt, -1)
    else
      var prev := BestSoFar(vals, n - 1);
      if vals[n - 1] > prev.0 then (vals[n - 1], n - 1) else prev
  }

  function BestIndex(vals: seq<int>): (i: int)
    ensures -1 <= i < |vals|
  {
    BestSoFar(vals, |vals|).1
  }

  /** One more step of the root loop. */
  lemma BestSoFarNext(vals: seq<int>, n: nat)
    requires n < |vals|
    ensures BestSoFar(vals, n + 1) == if vals[n] > BestSoFar(vals, n).0 then (vals[n], n) else BestSoFar(vals, n)
  {
  }

  /**
   * The root loop keeps the first child that reaches the strict maximum:
   * no index when every value is at most Integer.MIN_VALUE, and otherwise
   * an index whose value is above the sentinel, at least every value, and
   * strictly above every value before it.
   */
  lemma {:induction false} BestSoFarSpec(vals: seq<int>, n: nat)
    requires n <= |vals|
    ensures var (bv, bi) := BestSoFar(vals, n);
      && -1 <= bi < n
      && (bi == -1 <==> forall j :: 0 <= j < n ==> vals[j] <= MinInt)
      && (bi == -1 ==> bv == MinInt)
      && (bi >= 0 ==> bv == vals[bi] && MinInt < bv)
      && (forall j :: 0 <= j < n ==> vals[j] <= bv)
      && (bi >= 0 ==> forall j :: 0 <= j < bi ==> vals[j] < bv)
  {
    if n > 0 {
      BestSoFarSpec(vals, n - 1);
    }
  }

  lemma BestIndexSpec(vals: seq<int>)
    ensures var bi := BestIndex(vals);
      && -1 <= bi < |vals|
      && (bi == -1 <==> forall j :: 0 <= j < |vals| ==> vals[j] <= MinInt)
      && (bi >= 0 ==> MinInt < vals[bi])
      && (bi >= 0 ==> forall j :: 0 <= j < |vals| ==> vals[j] <= vals[bi])
      && (bi >= 0 ==> forall j :: 0 <= j < bi ==> vals[j] < vals[bi])
  {
    BestSoFarSpec(vals, |vals|);
  }

  /** When every value ties, the strict `>` keeps the first index (or none). */
  lemma BestIndexOnTies(vals: seq<int>)
    requires forall j :: 0 <= j < |vals| ==> vals[j] == vals[0]
    ensures BestIndex(vals) <= 0
  {
    BestIndexSpec(vals);
  }
}
