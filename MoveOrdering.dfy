/**
 * The three move orderings (src/strategies/). Each copies the move list and
 * sorts the copy stably by a key: (row, col) for the default ordering, the
 * Manhattan distance to the centre for centre-first, and the descending
 * evaluator score of the successor for the heuristic ordering. The
 * `MoveOrderingStrategy` interface is the `Strategy` datatype.
 */
module MoveOrdering {
  import opened Players
  import opened Positions
  import opened GameStates
  import opened Heuristic
  import opened Sorting

  datatype Strategy = DefaultOrdering | CenterFirstOrdering | HeuristicOrdering

  function Abs(x: int): (r: nat)
    ensures r == x || r == -x
  {
    if x < 0 then -x else x
  }

  /** |row - m/2| + |col - m/2|. */
  function CenterDistance(m: int, p: Position): nat {
    Abs(p.row - m / 2) + Abs(p.col - m / 2)
  }

  /** The heuristic ordering's score: the successor evaluated for the player who moved. */
  function MoveScore(s: GameState, mv: Position): int
    requires WellFormed(s) && IsLegal(s, mv)
  {
    Evaluate(Successor(s, mv), s.currentPlayer)
  }

  /** The heuristic ordering plays each move, so each must be legal; the others only read it. */
  predicate Keyable(st: Strategy, s: GameState, mv: Position)
    requires WellFormed(s)
  {
    st == HeuristicOrdering ==> IsLegal(s, mv)
  }

  predicate AllKeyable(st: Strategy, s: GameState, moves: seq<Position>)
    requires WellFormed(s)
  {
    forall i :: 0 <= i < |moves| ==> Keyable(st, s, moves[i])
  }

  /** What each comparator compares; a higher score sorts first, so its key is the negated score. */
  function KeyOf(st: Strategy, s: GameState, mv: Position): Key
    requires WellFormed(s) && Keyable(st, s, mv)
  {
    match st
    case DefaultOrdering => Key(mv.row, mv.col)
    case CenterFirstOrdering => Key(CenterDistance(s.m, mv), 0)
    case HeuristicOrdering => Key(-MoveScore(s, mv), 0)
  }

  /** Each move paired with its key (the source's `ScoredMove` list for the heuristic ordering). */
  function Tag(st: Strategy, s: GameState, moves: seq<Position>): (t: seq<Keyed>)
    requires WellFormed(s) && AllKeyable(st, s, moves)
    ensures |t| == |moves|
  {
    seq(|moves|, i requires 0 <= i < |moves| => Keyed(moves[i], KeyOf(st, s, moves[i])))
  }

  lemma TagAt(st: Strategy, s: GameState, moves: seq<Position>, i: nat)
    requires WellFormed(s) && AllKeyable(st, s, moves) && i < |moves|
    ensures Tag(st, s, moves)[i] == Keyed(moves[i], KeyOf(st, s, moves[i]))
  {
  }

  lemma PrefixSnoc<T>(a: seq<T>, i: nat, x: T)
    requires i < |a| && a[i] == x
    ensures a[..i + 1] == a[..i] + [x]
  {
  }

  lemma HeuristicTagAt(s: GameState, moves: seq<Position>, i: nat)
    requires WellFormed(s) && AllKeyable(HeuristicOrdering, s, moves) && i < |moves|
    ensures Tag(HeuristicOrdering, s, moves)[i] == Keyed(moves[i], Key(-MoveScore(s, moves[i]), 0))
  {
    TagAt(HeuristicOrdering, s, moves, i);
  }

  /** `orderMoves(state, moves)` of each strategy. */
  function OrderedMoves(st: Strategy, s: GameState, moves: seq<Position>): seq<Position>
    requires WellFormed(s) && AllKeyable(st, s, moves)
  {
    Moves(SortBy(Tag(st, s, moves)))
  }

  // ---------------------------------------------------------------------------
  // Tagged sequences

  /** Every element carries the key its own move has. */
  predicate Consistent(st: Strategy, s: GameState, t: seq<Keyed>)
    requires WellFormed(s)
  {
    forall i :: 0 <= i < |t| ==> Keyable(st, s, t[i].move) && t[i].key == KeyOf(st, s, t[i].move)
  }

  lemma TagConsistent(st: Strategy, s: GameState, moves: seq<Position>)
    requires WellFormed(s) && AllKeyable(st, s, moves)
    ensures Consistent(st, s, Tag(st, s, moves))
    ensures Moves(Tag(st, s, moves)) == moves
  {
  }

  /** Sorting keeps the elements, so it keeps them consistent. */
  lemma SortByConsistent(st: Strategy, s: GameState, t: seq<Keyed>)
    requires WellFormed(s) && Consistent(st, s, t)
    ensures Consistent(st, s, SortBy(t))
  {
    SortByPermutation(t);
    var r := SortBy(t);
    forall i | 0 <= i < |r|
      ensures Keyable(st, s, r[i].move) && r[i].key == KeyOf(st, s, r[i].move)
    {
      assert r[i] in multiset(r);
      var j :| 0 <= j < |t| && t[j] == r[i];
    }
  }

  /** Re-tagging the moves of a consistent sequence gives it back. */
  lemma RetagConsistent(st: Strategy, s: GameState, t: seq<Keyed>)
    requires WellFormed(s) && Consistent(st, s, t)
    ensures AllKeyable(st, s, Moves(t))
    ensures Tag(st, s, Moves(t)) == t
  {
  }

  /** The ordered moves, tagged again, are the sorted tags. */
  lemma RetagOrdered(st: Strategy, s: GameState, moves: seq<Position>)
    requires WellFormed(s) && AllKeyable(st, s, moves)
    ensures AllKeyable(st, s, OrderedMoves(st, s, moves))
    ensures Tag(st, s, OrderedMoves(st, s, moves)) == SortBy(Tag(st, s, moves))
  {
    TagConsistent(st, s, moves);
    SortByConsistent(st, s, Tag(st, s, moves));
    RetagConsistent(st, s, SortBy(Tag(st, s, moves)));
  }

  // ---------------------------------------------------------------------------
  // Properties common to the three orderings

  /** The result is a permutation of the input list. */
  lemma OrderedMovesPermutation(st: Strategy, s: GameState, moves: seq<Position>)
    requires WellFormed(s) && AllKeyable(st, s, moves)
    ensures multiset(OrderedMoves(st, s, moves)) == multiset(moves)
  {
    SortByMovesPermutation(Tag(st, s, moves));
    TagConsistent(st, s, moves);
  }

  /** The result is in non-decreasing order of the comparator's key. */
  lemma OrderedMovesSorted(st: Strategy, s: GameState, moves: seq<Position>)
    requires WellFormed(s) && AllKeyable(st, s, moves)
    ensures AllKeyable(st, s, OrderedMoves(st, s, moves))
    ensures var r := OrderedMoves(st, s, moves);
      forall i, j :: 0 <= i < j < |r| ==> LessEq(KeyOf(st, s, r[i]), KeyOf(st, s, r[j]))
  {
    RetagOrdered(st, s, moves);
    SortBySorted(Tag(st, s, moves));
  }

  /** The moves of a list whose key is `k`, in list order. */
  function MovesWithKey(st: Strategy, s: GameState, moves: seq<Position>, k: Key): seq<Position>
    requires WellFormed(s) && AllKeyable(st, s, moves)
  {
    Moves(WithKey(Tag(st, s, moves), k))
  }

  /** Stability: moves with equal keys keep their input order. */
  lemma OrderedMovesStable(st: Strategy, s: GameState, moves: seq<Position>, k: Key)
    requires WellFormed(s) && AllKeyable(st, s, moves)
    ensures AllKeyable(st, s, OrderedMoves(st, s, moves))
    ensures MovesWithKey(st, s, OrderedMoves(st, s, moves), k) == MovesWithKey(st, s, moves, k)
  {
    RetagOrdered(st, s, moves);
    SortByStable(Tag(st, s, moves), k);
  }

  /** Ordering an ordered list changes nothing. */
  lemma OrderedMovesIdempotent(st: Strategy, s: GameState, moves: seq<Position>)
    requires WellFormed(s) && AllKeyable(st, s, moves)
    ensures AllKeyable(st, s, OrderedMoves(st, s, moves))
    ensures OrderedMoves(st, s, OrderedMoves(st, s, moves)) == OrderedMoves(st, s, moves)
  {
    RetagOrdered(st, s, moves);
    SortByIdempotent(Tag(st, s, moves));
  }

  // ---------------------------------------------------------------------------
  // Each ordering

  /** The default ordering is row-major: by row, then by column. */
  lemma DefaultOrderingRowMajor(s: GameState, moves: seq<Position>)
    requires WellFormed(s)
    ensures var r := OrderedMoves(DefaultOrdering, s, moves);
      forall i, j :: 0 <= i < j < |r| ==> Precedes(r[i], r[j]) || r[i] == r[j]
  {
    OrderedMovesSorted(DefaultOrdering, s, moves);
  }

  /** `getLegalMoves` is already row-major, so the default ordering returns it unchanged. */
  lemma DefaultOrderingKeepsLegalMoves(s: GameState)
    requires WellFormed(s)
    ensures OrderedMoves(DefaultOrdering, s, LegalMoves(s)) == LegalMoves(s)
  {
    var t := Tag(DefaultOrdering, s, LegalMoves(s));
    LegalMovesRowMajor(s);
    assert Sorted(t);
    SortBySortedIdentity(t);
    TagConsistent(DefaultOrdering, s, LegalMoves(s));
  }

  /** Centre-first: the distance to the centre never decreases along the result. */
  lemma CenterFirstByDistance(s: GameState, moves: seq<Position>)
    requires WellFormed(s)
    ensures var r := OrderedMoves(CenterFirstOrdering, s, moves);
      forall i, j :: 0 <= i < j < |r| ==> CenterDistance(s.m, r[i]) <= CenterDistance(s.m, r[j])
  {
    OrderedMovesSorted(CenterFirstOrdering, s, moves);
  }

  /** Centre-first keeps the input order among the moves at distance `d`. */
  lemma CenterFirstStable(s: GameState, moves: seq<Position>, d: nat)
    requires WellFormed(s)
    ensures MovesWithKey(CenterFirstOrdering, s, OrderedMoves(CenterFirstOrdering, s, moves), Key(d, 0))
         == MovesWithKey(CenterFirstOrdering, s, moves, Key(d, 0))
  {
    OrderedMovesStable(CenterFirstOrdering, s, moves, Key(d, 0));
  }

  /** The centre, when offered, comes first: it is the only cell at distance 0. */
  lemma CenterFirstPutsCenterFirst(s: GameState, moves: seq<Position>)
    requires WellFormed(s)
    requires Position(s.m / 2, s.m / 2) in moves
    ensures OrderedMoves(CenterFirstOrdering, s, moves) != []
    ensures OrderedMoves(CenterFirstOrdering, s, moves)[0] == Position(s.m / 2, s.m / 2)
  {
    var c := Position(s.m / 2, s.m / 2);
    var r := OrderedMoves(CenterFirstOrdering, s, moves);
    OrderedMovesPermutation(CenterFirstOrdering, s, moves);
    assert c in multiset(r);
    var i :| 0 <= i < |r| && r[i] == c;
    CenterFirstByDistance(s, moves);
    assert CenterDistance(s.m, r[0]) <= CenterDistance(s.m, r[i]);
  }

  /** The heuristic ordering puts higher-scoring moves first. */
  lemma HeuristicByScore(s: GameState, moves: seq<Position>)
    requires WellFormed(s) && AllKeyable(HeuristicOrdering, s, moves)
    ensures AllKeyable(HeuristicOrdering, s, OrderedMoves(HeuristicOrdering, s, moves))
    ensures var r := OrderedMoves(HeuristicOrdering, s, moves);
      forall i, j :: 0 <= i < j < |r| ==> MoveScore(s, r[i]) >= MoveScore(s, r[j])
  {
    OrderedMovesSorted(HeuristicOrdering, s, moves);
  }

  /** The heuristic ordering keeps the input order among moves of equal score. */
  lemma HeuristicStable(s: GameState, moves: seq<Position>, score: int)
    requires WellFormed(s) && AllKeyable(HeuristicOrdering, s, moves)
    ensures AllKeyable(HeuristicOrdering, s, OrderedMoves(HeuristicOrdering, s, moves))
    ensures MovesWithKey(HeuristicOrdering, s, OrderedMoves(HeuristicOrdering, s, moves), Key(-score, 0))
         == MovesWithKey(HeuristicOrdering, s, moves, Key(-score, 0))
  {
    OrderedMovesStable(HeuristicOrdering, s, moves, Key(-score, 0));
  }

  // ---------------------------------------------------------------------------
  // The source's methods

  /** `List.sort` on a copy of the list. */
  method SortCopy(t: seq<Keyed>) returns (r: seq<Keyed>)
    ensures r == SortBy(t)
  {
    var a := new Keyed[|t|](i requires 0 <= i < |t| => t[i]);
    assert a[..] == t;
    StableSort(a);
    r := a[..];
  }

  /** The second loop of `HeuristicMoveOrdering.orderMoves`: keep each scored move's position. */
  method ExtractMoves(scored: seq<Keyed>) returns (result: seq<Position>)
    ensures result == Moves(scored)
  {
    result := [];
    var i := 0;
    while i < |scored|
      invariant 0 <= i <= |scored|
      invariant result == Moves(scored[..i])
    {
      result := result + [scored[i].move];
      i := i + 1;
    }
    assert scored[..i] == scored;
  }

  /** `DefaultMoveOrdering.orderMoves` and `CenterFirstMoveOrdering.orderMoves`: sort a copy by the comparator's key. */
  method OrderByComparator(st: Strategy, s: GameState, moves: seq<Position>) returns (sorted: seq<Position>)
    requires WellFormed(s) && st != HeuristicOrdering
    ensures sorted == OrderedMoves(st, s, moves)
  {
    var copy := Tag(st, s, moves);
    var r := SortCopy(copy);
    sorted := Moves(r);
  }

  /**
   * `HeuristicMoveOrdering.orderMoves`: score every move by playing it and
   * evaluating the result for the mover, sort the scored moves by
   * descending score, then read the positions back out.
   */
  method OrderByHeuristic(s: GameState, moves: seq<Position>) returns (result: seq<Position>)
    requires WellFormed(s) && AllKeyable(HeuristicOrdering, s, moves)
    ensures result == OrderedMoves(HeuristicOrdering, s, moves)
  {
    var scoredMoves := ScoreMoves(s, moves);
    var sorted := SortCopy(scoredMoves);
    result := ExtractMoves(sorted);
  }

  /** The first loop of `HeuristicMoveOrdering.orderMoves`: one `ScoredMove` per move, in order. */
  method ScoreMoves(s: GameState, moves: seq<Position>) returns (scoredMoves: seq<Keyed>)
    requires WellFormed(s) && AllKeyable(HeuristicOrdering, s, moves)
    ensures scoredMoves == Tag(HeuristicOrdering, s, moves)
  {
    ghost var tagged := Tag(HeuristicOrdering, s, moves);
    scoredMoves := [];
    var i := 0;
    while i < |moves|
      invariant 0 <= i <= |moves|
      invariant scoredMoves == tagged[..i]
    {
      var move := moves[i];
      var score := ScoreMove(s, move);
      HeuristicTagAt(s, moves, i);
      assert tagged[i].move == move;
      assert tagged[i].key == Key(-score, 0);
      PrefixSnoc(tagged, i, Keyed(move, Key(-score, 0)));
      scoredMoves := scoredMoves + [Keyed(move, Key(-score, 0))];
      i := i + 1;
    }
    assert tagged[..i] == tagged;
  }

  /** One `ScoredMove` of the heuristic ordering: play the move, evaluate for the mover. */
  method ScoreMove(s: GameState, move: Position) returns (score: int)
    requires WellFormed(s) && IsLegal(s, move)
    ensures score == MoveScore(s, move)
  {
    var outcome := MakeMove(s, move);
    score := EvaluateState(outcome.state, s.currentPlayer);
  }

  /** The `MoveOrderingStrategy` interface: dispatch on the strategy. */
  method OrderMoves(st: Strategy, s: GameState, moves: seq<Position>) returns (ordered: seq<Position>)
    requires WellFormed(s) && AllKeyable(st, s, moves)
    ensures ordered == OrderedMoves(st, s, moves)
  {
    if st == HeuristicOrdering {
      ordered := OrderByHeuristic(s, moves);
    } else {
      ordered := OrderByComparator(st, s, moves);
    }
  }
}
