/**
 * The position evaluator of the depth-limited solver and the heuristic
 * move ordering (src/engine/HeuristicEvaluator.java).
 *
 * A non-terminal state scores line potential + centre control + mobility,
 * all from the view of one player; a terminal state scores its utility with
 * the sign flipped for O.
 */
module Heuristic {
  import opened Optional
  import opened Players
  import opened Positions
  import opened GameStates

  // ---------------------------------------------------------------------------
  // Powers of ten as `(int) Math.pow(10, n)` computes them

  function Pow10(n: nat): (r: nat)
    ensures r >= 1
  {
    if n == 0 then 1 else 10 * Pow10(n - 1)
  }

  const IntMax: int := 2147483647

  /**
   * `(int) Math.pow(10, n)`: exact up to n = 9; from n = 10 on the double
   * exceeds the int range and the cast saturates at Integer.MAX_VALUE.
   */
  function JavaPow10(n: nat): (r: int)
    ensures 1 <= r <= IntMax
    ensures n <= 9 ==> r == Pow10(n)
    ensures n > 9 ==> r == IntMax
  {
    if n <= 9 then PowBound(n); Pow10(n) else IntMax
  }

  lemma {:induction false} Pow10Monotone(a: nat, b: nat)
    requires a <= b
    ensures Pow10(a) <= Pow10(b)
    decreases b
  {
    if a < b {
      Pow10Monotone(a, b - 1);
    }
  }

  /** 10^9 is the largest power of ten an int holds. */
  lemma PowBound(n: nat)
    requires n <= 9
    ensures Pow10(n) <= 1000000000
  {
    Pow10Monotone(n, 9);
    assert Pow10(3) == 1000;
    assert Pow10(6) == 1000000;
    assert Pow10(9) == 1000000000;
  }

  /** A larger count never scores less. */
  lemma JavaPow10Monotone(a: nat, b: nat)
    requires a <= b
    ensures JavaPow10(a) <= JavaPow10(b)
    decreases b
  {
    if b <= 9 {
      Pow10Monotone(a, b);
    }
  }

  // ---------------------------------------------------------------------------
  // One window: evaluateLine

  /** How many of the first `n` cells from (r, c) stepping by (dr, dc) hold `v`. */
  function WindowCount(b: Board, r: int, c: int, dr: int, dc: int, n: nat, v: Cell): (cnt: nat)
    requires -1 <= dr <= 1 && -1 <= dc <= 1
    ensures cnt <= n
  {
    if n == 0 then 0
    else
      var here := if CellAt(b, Step(r, dr, n - 1), Step(c, dc, n - 1)) == v then 1 else 0;
      WindowCount(b, r, c, dr, dc, n - 1, v) + here
  }

  /**
   * The score of a window holding `pc` cells of the player and `oc` of the
   * opponent: nothing when both or neither appear, else ±10^count, which
   * the cast to `int` saturates at ±Integer.MAX_VALUE from count 10 on.
   */
  function LineScore(pc: nat, oc: nat): (r: int)
    ensures r > 0 <==> pc > 0 && oc == 0
    ensures r < 0 <==> oc > 0 && pc == 0
    ensures pc > 0 && oc == 0 && pc <= 9 ==> r == Pow10(pc)
    ensures oc > 0 && pc == 0 && oc <= 9 ==> r == -(Pow10(oc) as int)
    ensures pc > 9 && oc == 0 ==> r == IntMax
    ensures oc > 9 && pc == 0 ==> r == -IntMax
  {
    if pc > 0 && oc > 0 then 0
    else if pc > 0 then JavaPow10(pc)
    else if oc > 0 then -JavaPow10(oc)
    else 0
  }

  /** Swapping the two counts negates the score. */
  lemma LineScoreAntisymmetric(pc: nat, oc: nat)
    ensures LineScore(oc, pc) == -LineScore(pc, oc)
  {
  }

  /** `evaluateLine`: the window of `len` cells from (r, c), scored for `p`. */
  function WindowScore(b: Board, r: int, c: int, dr: int, dc: int, len: nat, p: Player): int
    requires -1 <= dr <= 1 && -1 <= dc <= 1
  {
    LineScore(WindowCount(b, r, c, dr, dc, len, Mark(p)),
              WindowCount(b, r, c, dr, dc, len, Mark(Opponent(p))))
  }

  /** A window scores the same for one player as minus its score for the other. */
  lemma WindowScoreAntisymmetric(b: Board, r: int, c: int, dr: int, dc: int, len: nat, p: Player)
    requires -1 <= dr <= 1 && -1 <= dc <= 1
    ensures WindowScore(b, r, c, dr, dc, len, Opponent(p)) == -WindowScore(b, r, c, dr, dc, len, p)
  {
    LineScoreAntisymmetric(WindowCount(b, r, c, dr, dc, len, Mark(p)),
                           WindowCount(b, r, c, dr, dc, len, Mark(Opponent(p))));
  }

  // ---------------------------------------------------------------------------
  // The four scans of evaluateLines

  datatype Scan = RowScan | ColumnScan | DiagonalScan | AntiDiagonalScan

  function Delta(sc: Scan): (d: (int, int))
    ensures IsDirection(d.0, d.1)
  {
    match sc
    case RowScan => (0, 1)
    case ColumnScan => (1, 0)
    case DiagonalScan => (1, 1)
    case AntiDiagonalScan => (1, -1)
  }

  /** The outer loop runs over [0, OuterHi). */
  function OuterHi(sc: Scan, m: int, k: int): int {
    match sc
    case RowScan => m
    case ColumnScan => m
    case DiagonalScan => m - k + 1
    case AntiDiagonalScan => m - k + 1
  }

  /** The inner loop runs over [InnerLo, InnerHi). */
  function InnerLo(sc: Scan, k: int): int {
    if sc == AntiDiagonalScan then k - 1 else 0
  }

  function InnerHi(sc: Scan, m: int, k: int): int {
    if sc == AntiDiagonalScan then m else m - k + 1
  }

  /** The window start for loop indices (outer, inner); the column scan runs columns outermost. */
  function StartOf(sc: Scan, outer: int, inner: int): Position {
    if sc == ColumnScan then Position(inner, outer) else Position(outer, inner)
  }

  function ScanWindow(b: Board, k: nat, p: Player, sc: Scan, outer: int, inner: int): int {
    var start := StartOf(sc, outer, inner);
    WindowScore(b, start.row, start.col, Delta(sc).0, Delta(sc).1, k, p)
  }

  /** The inner loop's total after inner indices InnerLo .. j-1. */
  function InnerSum(b: Board, k: nat, p: Player, sc: Scan, outer: int, j: int): int
    decreases j - InnerLo(sc, k)
  {
    if j <= InnerLo(sc, k) then 0
    else InnerSum(b, k, p, sc, outer, j - 1) + ScanWindow(b, k, p, sc, outer, j - 1)
  }

  /** The scan's total after outer indices 0 .. i-1. */
  function OuterSum(b: Board, m: int, k: nat, p: Player, sc: Scan, i: int): int
    decreases i
  {
    if i <= 0 then 0
    else OuterSum(b, m, k, p, sc, i - 1) + InnerSum(b, k, p, sc, i - 1, InnerHi(sc, m, k))
  }

  function ScanScore(s: GameState, p: Player, sc: Scan): int
    requires WellFormed(s)
  {
    OuterSum(s.board, s.m, s.k, p, sc, OuterHi(sc, s.m, s.k))
  }

  /** `evaluateLines`: rows, then columns, then diagonals, then anti-diagonals. */
  function Lines(s: GameState, p: Player): int
    requires WellFormed(s)
  {
    ScanScore(s, p, RowScan) + ScanScore(s, p, ColumnScan)
      + ScanScore(s, p, DiagonalScan) + ScanScore(s, p, AntiDiagonalScan)
  }

  /** All `len` cells from (r, c) stepping by (dr, dc) lie on the m×m board. */
  predicate WindowInside(m: int, r: int, c: int, dr: int, dc: int, len: nat)
    requires -1 <= dr <= 1 && -1 <= dc <= 1
  {
    forall t :: 0 <= t < len ==> InBounds(m, Step(r, dr, t), Step(c, dc, t))
  }

  predicate InScanRange(sc: Scan, m: int, k: int, outer: int, inner: int) {
    0 <= outer < OuterHi(sc, m, k) && InnerLo(sc, k) <= inner < InnerHi(sc, m, k)
  }

  /**
   * The scans visit exactly the windows that lie fully on the board: a
   * window starting on the board is scanned iff all its k cells are on the
   * board (anti-diagonals start at column k-1 or later for that reason).
   */
  lemma ScanRangeIsInside(sc: Scan, m: int, k: nat, outer: int, inner: int)
    requires 1 <= k <= m
    requires InBounds(m, StartOf(sc, outer, inner).row, StartOf(sc, outer, inner).col)
    ensures InScanRange(sc, m, k, outer, inner) <==>
      WindowInside(m, StartOf(sc, outer, inner).row, StartOf(sc, outer, inner).col, Delta(sc).0, Delta(sc).1, k)
  {
    var start := StartOf(sc, outer, inner);
    var (dr, dc) := Delta(sc);
    if WindowInside(m, start.row, start.col, dr, dc, k) {
      assert InBounds(m, Step(start.row, dr, k - 1), Step(start.col, dc, k - 1));
    }
  }

  /** No window of length k fits when k exceeds m, so every scan is empty. */
  lemma NoWindowsWhenTooLong(sc: Scan, m: int, k: nat, outer: int, inner: int)
    requires 0 <= m < k
    ensures !InScanRange(sc, m, k, outer, inner)
  {
  }

  /** Every window a scan visits lies on the board. */
  lemma ScanWindowInside(sc: Scan, m: int, k: nat, outer: int, inner: int)
    requires InScanRange(sc, m, k, outer, inner)
    ensures WindowInside(m, StartOf(sc, outer, inner).row, StartOf(sc, outer, inner).col, Delta(sc).0, Delta(sc).1, k)
  {
  }

  lemma {:induction false} InnerSumAntisymmetric(b: Board, k: nat, p: Player, sc: Scan, outer: int, j: int)
    ensures InnerSum(b, k, Opponent(p), sc, outer, j) == -InnerSum(b, k, p, sc, outer, j)
    decreases j - InnerLo(sc, k)
  {
    if j > InnerLo(sc, k) {
      InnerSumAntisymmetric(b, k, p, sc, outer, j - 1);
      var start := StartOf(sc, outer, j - 1);
      WindowScoreAntisymmetric(b, start.row, start.col, Delta(sc).0, Delta(sc).1, k, p);
    }
  }

  lemma {:induction false} OuterSumAntisymmetric(b: Board, m: int, k: nat, p: Player, sc: Scan, i: int)
    ensures OuterSum(b, m, k, Opponent(p), sc, i) == -OuterSum(b, m, k, p, sc, i)
    decreases i
  {
    if i > 0 {
      OuterSumAntisymmetric(b, m, k, p, sc, i - 1);
      InnerSumAntisymmetric(b, k, p, sc, i - 1, InnerHi(sc, m, k));
    }
  }

  /** Line potential is zero-sum: what one player gains the other loses. */
  lemma LinesAntisymmetric(s: GameState, p: Player)
    requires WellFormed(s)
    ensures Lines(s, Opponent(p)) == -Lines(s, p)
  {
    OuterSumAntisymmetric(s.board, s.m, s.k, p, RowScan, OuterHi(RowScan, s.m, s.k));
    OuterSumAntisymmetric(s.board, s.m, s.k, p, ColumnScan, OuterHi(ColumnScan, s.m, s.k));
    OuterSumAntisymmetric(s.board, s.m, s.k, p, DiagonalScan, OuterHi(DiagonalScan, s.m, s.k));
    OuterSumAntisymmetric(s.board, s.m, s.k, p, AntiDiagonalScan, OuterHi(AntiDiagonalScan, s.m, s.k));
  }

  // ---------------------------------------------------------------------------
  // Centre control and mobility

  /** 1 when (i, j) is on the board and held by `p`. */
  function Held(b: Board, m: int, i: int, j: int, p: Player): (r: nat)
    ensures r <= 1
  {
    if 0 <= i < m && 0 <= j < m && CellAt(b, i, j) == Mark(p) then 1 else 0
  }

  /** Cells of row i held by `p` among the columns center-1 .. j-1. */
  function BlockRow(b: Board, m: int, p: Player, center: int, i: int, j: int): (r: nat)
    requires center - 1 <= j <= center + 2
    ensures r <= j - (center - 1)
    decreases j - center
  {
    if j == center - 1 then 0 else BlockRow(b, m, p, center, i, j - 1) + Held(b, m, i, j - 1, p)
  }

  /** Cells held by `p` in rows center-1 .. i-1 of the 3×3 block. */
  function BlockSum(b: Board, m: int, p: Player, center: int, i: int): (r: nat)
    requires center - 1 <= i <= center + 2
    ensures r <= 3 * (i - (center - 1))
    decreases i - center
  {
    if i == center - 1 then 0 else BlockSum(b, m, p, center, i - 1) + BlockRow(b, m, p, center, i - 1, center + 2)
  }

  /**
   * `evaluateCenterControl`: 3 for holding the centre (m/2, m/2), plus one
   * per held cell of the 3×3 block around it — the centre counted again.
   */
  function CenterControl(s: GameState, p: Player): int
    requires WellFormed(s)
  {
    var center := s.m / 2;
    (if CellAt(s.board, center, center) == Mark(p) then 3 else 0) + BlockSum(s.board, s.m, p, center, center + 2)
  }

  /** The block count includes the centre cell itself. */
  lemma BlockHasCenter(b: Board, m: int, p: Player, center: int)
    requires 0 <= center < m
    ensures BlockSum(b, m, p, center, center + 2) >= Held(b, m, center, center, p)
    ensures BlockSum(b, m, p, center, center + 2) <= 8 + Held(b, m, center, center, p)
  {
    assert BlockRow(b, m, p, center, center, center) == Held(b, m, center, center - 1, p);
    assert BlockRow(b, m, p, center, center, center + 1)
        == BlockRow(b, m, p, center, center, center) + Held(b, m, center, center, p);
    assert BlockRow(b, m, p, center, center, center + 2)
        == BlockRow(b, m, p, center, center, center + 1) + Held(b, m, center, center + 1, p);
    assert BlockSum(b, m, p, center, center + 1)
        == BlockSum(b, m, p, center, center) + BlockRow(b, m, p, center, center, center + 2);
  }

  /**
   * Centre control lies in [0, 12]; holding the centre scores at least
   * 3 + 1, and without it the block alone gives at most 8.
   */
  lemma CenterControlBounds(s: GameState, p: Player)
    requires WellFormed(s)
    ensures 0 <= CenterControl(s, p) <= 12
    ensures CellAt(s.board, s.m / 2, s.m / 2) == Mark(p) ==> CenterControl(s, p) >= 4
    ensures CellAt(s.board, s.m / 2, s.m / 2) != Mark(p) ==> CenterControl(s, p) <= 8
  {
    BlockHasCenter(s.board, s.m, p, s.m / 2);
  }

  /** `evaluateMobility`: the number of legal moves, whoever the score is for. */
  function Mobility(s: GameState): (r: nat)
    requires WellFormed(s)
    ensures r == Count(s, Empty)
    ensures r <= s.m * s.m
  {
    LegalMovesPlusOccupied(s);
    |LegalMoves(s)|
  }

  // ---------------------------------------------------------------------------
  // evaluate

  /** `evaluate(state, player)`. */
  function Evaluate(s: GameState, p: Player): int
    requires WellFormed(s)
  {
    if s.isTerminal then Utility(s) * (if p == X then 1 else -1)
    else Lines(s, p) + CenterControl(s, p) + Mobility(s)
  }

  /** A finished game scores +1 for a win of `p`, -1 for a loss and 0 for a draw. */
  lemma EvaluateTerminal(s: GameState, p: Player)
    requires WellFormed(s) && s.isTerminal
    ensures Evaluate(s, p) == 1 <==> s.winner == Some(p)
    ensures Evaluate(s, p) == -1 <==> s.winner == Some(Opponent(p))
    ensures Evaluate(s, p) == 0 <==> s.winner == None
  {
  }

  /**
   * Only centre control and mobility are not zero-sum: the two players'
   * scores of an unfinished game add up to both centre bonuses plus twice
   * the mobility.
   */
  lemma EvaluateSum(s: GameState, p: Player)
    requires WellFormed(s) && !s.isTerminal
    ensures Evaluate(s, p) + Evaluate(s, Opponent(p))
         == CenterControl(s, p) + CenterControl(s, Opponent(p)) + 2 * Mobility(s)
  {
    LinesAntisymmetric(s, p);
  }

  // ---------------------------------------------------------------------------
  // The source's loops, proved against the functions above

  /** `evaluateLine`: count both players' cells in the window, then score it. */
  method EvaluateLine(s: GameState, startRow: int, startCol: int, deltaRow: int, deltaCol: int,
                      length: nat, p: Player) returns (score: int)
    requires WellFormed(s) && -1 <= deltaRow <= 1 && -1 <= deltaCol <= 1
    requires WindowInside(s.m, startRow, startCol, deltaRow, deltaCol, length)
    ensures score == WindowScore(s.board, startRow, startCol, deltaRow, deltaCol, length, p)
  {
    var playerCount := 0;
    var opponentCount := 0;
    var opponent := Opponent(p);
    var i := 0;
    while i < length
      invariant 0 <= i <= length
      invariant playerCount == WindowCount(s.board, startRow, startCol, deltaRow, deltaCol, i, Mark(p))
      invariant opponentCount == WindowCount(s.board, startRow, startCol, deltaRow, deltaCol, i, Mark(opponent))
    {
      var row := Step(startRow, deltaRow, i);
      var col := Step(startCol, deltaCol, i);
      assert InBounds(s.m, row, col);
      var cell := s.board[row][col];
      if cell == Mark(p) {
        playerCount := playerCount + 1;
      } else if cell == Mark(opponent) {
        opponentCount := opponentCount + 1;
      }
      i := i + 1;
    }
    if playerCount > 0 && opponentCount > 0 {
      return 0;
    }
    if playerCount > 0 {
      return JavaPow10(playerCount);
    } else if opponentCount > 0 {
      return -JavaPow10(opponentCount);
    }
    return 0;
  }

  /** The inner loop of one scan of `evaluateLines`, for one outer index. */
  method ScanInner(s: GameState, p: Player, sc: Scan, i: int) returns (score: int)
    requires WellFormed(s) && 0 <= i < OuterHi(sc, s.m, s.k)
    ensures score == InnerSum(s.board, s.k, p, sc, i, InnerHi(sc, s.m, s.k))
  {
    score := 0;
    var j := InnerLo(sc, s.k);
    while j < InnerHi(sc, s.m, s.k)
      invariant InnerLo(sc, s.k) <= j <= InnerHi(sc, s.m, s.k)
      invariant score == InnerSum(s.board, s.k, p, sc, i, j)
    {
      var w := ScanAt(s, p, sc, i, j);
      score := score + w;
      j := j + 1;
    }
  }

  /** The body of the inner loop: `evaluateLine` on the window the indices (i, j) select. */
  method ScanAt(s: GameState, p: Player, sc: Scan, i: int, j: int) returns (w: int)
    requires WellFormed(s) && InScanRange(sc, s.m, s.k, i, j)
    ensures w == ScanWindow(s.board, s.k, p, sc, i, j)
  {
    var start := StartOf(sc, i, j);
    ScanWindowInside(sc, s.m, s.k, i, j);
    w := EvaluateLine(s, start.row, start.col, Delta(sc).0, Delta(sc).1, s.k, p);
  }

  /** One of the four double loops of `evaluateLines`. */
  method ScanWindows(s: GameState, p: Player, sc: Scan) returns (score: int)
    requires WellFormed(s)
    ensures score == ScanScore(s, p, sc)
  {
    score := 0;
    var i := 0;
    while i < OuterHi(sc, s.m, s.k)
      invariant 0 <= i <= OuterHi(sc, s.m, s.k)
      invariant score == OuterSum(s.board, s.m, s.k, p, sc, i)
    {
      var row := ScanInner(s, p, sc, i);
      score := score + row;
      i := i + 1;
    }
  }

  /** `evaluateLines`. */
  method EvaluateLines(s: GameState, p: Player) returns (score: int)
    requires WellFormed(s)
    ensures score == Lines(s, p)
  {
    score := 0;
    var rows := ScanWindows(s, p, RowScan);
    score := score + rows;
    var cols := ScanWindows(s, p, ColumnScan);
    score := score + cols;
    var diags := ScanWindows(s, p, DiagonalScan);
    score := score + diags;
    var antis := ScanWindows(s, p, AntiDiagonalScan);
    score := score + antis;
  }

  /** `evaluateCenterControl`. */
  method EvaluateCenterControl(s: GameState, p: Player) returns (score: int)
    requires WellFormed(s)
    ensures score == CenterControl(s, p)
  {
    var m := s.m;
    var center := m / 2;
    score := 0;
    if s.board[center][center] == Mark(p) {
      score := score + 3;
    }
    var base := score;
    var i := center - 1;
    while i <= center + 1
      invariant center - 1 <= i <= center + 2
      invariant score == base + BlockSum(s.board, m, p, center, i)
    {
      var held := CountBlockRow(s.board, m, p, center, i);
      score := score + held;
      i := i + 1;
    }
  }

  /** The inner loop of `evaluateCenterControl`: the held cells of one row of the block. */
  method CountBlockRow(b: Board, m: int, p: Player, center: int, i: int) returns (count: nat)
    requires IsSquare(b, m)
    ensures count == BlockRow(b, m, p, center, i, center + 2)
  {
    count := 0;
    var j := center - 1;
    while j <= center + 1
      invariant center - 1 <= j <= center + 2
      invariant count == BlockRow(b, m, p, center, i, j)
    {
      if i >= 0 && i < m && j >= 0 && j < m && b[i][j] == Mark(p) {
        count := count + 1;
      }
      j := j + 1;
    }
  }

  /** `evaluateMobility`: the size of the legal-move list; the player is not used. */
  method EvaluateMobility(s: GameState, p: Player) returns (mobility: int)
    requires WellFormed(s)
    ensures mobility == Mobility(s)
  {
    var moves := GetLegalMoves(s);
    mobility := |moves|;
  }

  /** `evaluate`. */
  method EvaluateState(s: GameState, p: Player) returns (score: int)
    requires WellFormed(s)
    ensures score == Evaluate(s, p)
  {
    if s.isTerminal {
      return Utility(s) * (if p == X then 1 else -1);
    }
    score := 0;
    var lines := EvaluateLines(s, p);
    score := score + lines;
    var centre := EvaluateCenterControl(s, p);
    score := score + centre;
    var mobility := EvaluateMobility(s, p);
    score := score + mobility;
  }
}
