/**
 * The immutable m×m board (src/model/GameState.java).
 *
 * A state is a value: `MakeMove` derives a new state and never changes its
 * receiver. The board is a sequence of rows; the source's copy-then-write of
 * a `Player[][]` is the sequence update in `Successor`.
 */
module GameStates {
  import opened Optional
  import opened Players
  import opened Positions

  /** A square of the board: `null` in the source, or the player holding it. */
  datatype Cell = Empty | Mark(owner: Player)

  type Board = seq<seq<Cell>>

  datatype GameState = GameState(
    board: Board,
    currentPlayer: Player,
    m: int,
    k: int,
    winner: Option<Player>,
    isTerminal: bool)

  predicate IsSquare(b: Board, m: int) {
    |b| == m && forall i :: 0 <= i < |b| ==> |b[i]| == m
  }

  /** The board has m rows of m cells, and the win length is 1 <= k <= m. */
  predicate WellFormed(s: GameState) {
    1 <= s.k <= s.m && IsSquare(s.board, s.m)
  }

  predicate InBounds(m: int, r: int, c: int) {
    0 <= r < m && 0 <= c < m
  }

  /** A move the state accepts: an in-bounds empty cell. */
  predicate IsLegal(s: GameState, p: Position)
    requires WellFormed(s)
  {
    InBounds(s.m, p.row, p.col) && s.board[p.row][p.col] == Empty
  }

  /** The cell at (r, c), read as empty off the board. */
  function CellAt(b: Board, r: int, c: int): Cell {
    if 0 <= r < |b| && 0 <= c < |b[r]| then b[r][c] else Empty
  }

  /** `GameState(m, k)`: the empty board, X to move, no winner, not terminal. */
  function NewGame(m: int, k: int): (s: GameState)
    requires 1 <= k <= m
    ensures WellFormed(s) && s.m == m && s.k == k
    ensures s.currentPlayer == X && s.winner == None && !s.isTerminal
    ensures forall r, c :: InBounds(m, r, c) ==> s.board[r][c] == Empty
  {
    GameState(seq(m, _ => seq(m, _ => Empty)), X, m, k, None, false)
  }

  /** `getUtility`: +1 when X has won, -1 when O has won, 0 otherwise. */
  function Utility(s: GameState): (u: int)
    ensures -1 <= u <= 1
    ensures u == 1 <==> s.winner == Some(X)
    ensures u == -1 <==> s.winner == Some(O)
    ensures u == 0 <==> s.winner == None
  {
    match s.winner
    case None => 0
    case Some(X) => 1
    case Some(O) => -1
  }

  // ---------------------------------------------------------------------------
  // Counting cells

  /** How many cells of a row hold `v`. */
  function CountRow(row: seq<Cell>, v: Cell): nat {
    if row == [] then 0
    else CountRow(row[..|row| - 1], v) + (if row[|row| - 1] == v then 1 else 0)
  }

  /** How many cells of the first `i` rows hold `v`. */
  function CountRows(b: Board, i: nat, v: Cell): nat
    requires i <= |b|
  {
    if i == 0 then 0 else CountRows(b, i - 1, v) + CountRow(b[i - 1], v)
  }

  function Count(s: GameState, v: Cell): nat
    requires WellFormed(s)
  {
    CountRows(s.board, s.m, v)
  }

  lemma {:induction false} CountRowUpdate(row: seq<Cell>, c: nat, w: Cell, v: Cell)
    requires c < |row|
    ensures CountRow(row[c := w], v)
         == CountRow(row, v) - (if row[c] == v then 1 else 0) + (if w == v then 1 else 0)
    decreases |row|
  {
    var n := |row|;
    var row' := row[c := w];
    if c == n - 1 {
      assert row'[..n - 1] == row[..n - 1];
    } else {
      assert row'[..n - 1] == row[..n - 1][c := w];
      CountRowUpdate(row[..n - 1], c, w, v);
    }
  }

  lemma {:induction false} CountRowsUpdate(b: Board, i: nat, r: nat, row: seq<Cell>, v: Cell)
    requires i <= |b| && r < |b|
    ensures CountRows(b[r := row], i, v)
         == if r < i then CountRows(b, i, v) - CountRow(b[r], v) + CountRow(row, v)
            else CountRows(b, i, v)
    decreases i
  {
    if i > 0 {
      CountRowsUpdate(b, i - 1, r, row, v);
    }
  }

  /** Every cell of a row is empty, an X or an O. */
  lemma {:induction false} CountRowPartition(row: seq<Cell>)
    ensures CountRow(row, Empty) + CountRow(row, Mark(X)) + CountRow(row, Mark(O)) == |row|
    decreases |row|
  {
    if row != [] {
      CountRowPartition(row[..|row| - 1]);
      var last := row[|row| - 1];
      assert last == Empty || last == Mark(X) || last == Mark(O) by {
        if last.Mark? { ExactlyTwoPlayers(last.owner); }
      }
    }
  }

  lemma {:induction false} CountRowsPartition(b: Board, m: int, i: nat)
    requires IsSquare(b, m) && i <= m
    ensures CountRows(b, i, Empty) + CountRows(b, i, Mark(X)) + CountRows(b, i, Mark(O)) == i * m
    decreases i
  {
    if i > 0 {
      CountRowsPartition(b, m, i - 1);
      CountRowPartition(b[i - 1]);
      assert (i - 1) * m + m == i * m;
    }
  }

  lemma {:induction false} CountRowAbsent(row: seq<Cell>, v: Cell)
    requires forall j :: 0 <= j < |row| ==> row[j] != v
    ensures CountRow(row, v) == 0
    decreases |row|
  {
    if row != [] {
      CountRowAbsent(row[..|row| - 1], v);
    }
  }

  lemma {:induction false} CountRowsAbsent(b: Board, i: nat, v: Cell)
    requires i <= |b|
    requires forall r, c :: 0 <= r < i && 0 <= c < |b[r]| ==> b[r][c] != v
    ensures CountRows(b, i, v) == 0
    decreases i
  {
    if i > 0 {
      CountRowsAbsent(b, i - 1, v);
      CountRowAbsent(b[i - 1], v);
    }
  }

  // ---------------------------------------------------------------------------
  // Legal moves

  /** Row-major order on positions: row first, then column. */
  predicate Precedes(a: Position, b: Position) {
    a.row < b.row || (a.row == b.row && a.col < b.col)
  }

  /** Strictly increasing in row-major order, hence without duplicates. */
  predicate RowMajor(ms: seq<Position>) {
    forall i, j :: 0 <= i < j < |ms| ==> Precedes(ms[i], ms[j])
  }

  /** The empty cells of row `i` with column below `j`, left to right. */
  function RowEmpties(b: Board, i: nat, j: nat): seq<Position>
    requires i < |b| && j <= |b[i]|
  {
    if j == 0 then []
    else RowEmpties(b, i, j - 1) + (if b[i][j - 1] == Empty then [Position(i, j - 1)] else [])
  }

  /** The empty cells of the first `i` rows, in row-major order. */
  function EmptiesBefore(b: Board, i: nat): seq<Position>
    requires i <= |b|
  {
    if i == 0 then [] else EmptiesBefore(b, i - 1) + RowEmpties(b, i - 1, |b[i - 1]|)
  }

  lemma {:induction false} RowEmptiesFacts(b: Board, i: nat, j: nat)
    requires i < |b| && j <= |b[i]|
    ensures |RowEmpties(b, i, j)| == CountRow(b[i][..j], Empty)
    ensures forall p :: p in RowEmpties(b, i, j) <==> p.row == i && 0 <= p.col < j && b[i][p.col] == Empty
    ensures forall x :: 0 <= x < |RowEmpties(b, i, j)| ==> RowEmpties(b, i, j)[x].row == i
    ensures RowMajor(RowEmpties(b, i, j))
    decreases j
  {
    if j > 0 {
      RowEmptiesFacts(b, i, j - 1);
      assert b[i][..j][..j - 1] == b[i][..j - 1];
    }
  }

  lemma {:induction false} EmptiesBeforeFacts(b: Board, m: int, i: nat)
    requires IsSquare(b, m) && i <= m
    ensures |EmptiesBefore(b, i)| == CountRows(b, i, Empty)
    ensures forall p :: p in EmptiesBefore(b, i) <==>
      0 <= p.row < i && 0 <= p.col < m && b[p.row][p.col] == Empty
    ensures forall x :: 0 <= x < |EmptiesBefore(b, i)| ==> EmptiesBefore(b, i)[x].row < i
    ensures RowMajor(EmptiesBefore(b, i))
    decreases i
  {
    if i > 0 {
      EmptiesBeforeFacts(b, m, i - 1);
      RowEmptiesFacts(b, i - 1, m);
      assert b[i - 1][..m] == b[i - 1];
      var e, r := EmptiesBefore(b, i - 1), RowEmpties(b, i - 1, m);
      assert EmptiesBefore(b, i) == e + r;
      forall x, y | 0 <= x < y < |e + r|
        ensures Precedes((e + r)[x], (e + r)[y])
      {
        if y < |e| {
        } else if x >= |e| {
          assert (e + r)[x] == r[x - |e|] && (e + r)[y] == r[y - |e|];
        } else {
          assert (e + r)[x] == e[x] && (e + r)[y] == r[y - |e|];
        }
      }
    }
  }

  /** `getLegalMoves` as a value: exactly the empty cells, row-major, no duplicates. */
  function LegalMoves(s: GameState): (ms: seq<Position>)
    requires WellFormed(s)
    ensures forall p :: p in ms <==> IsLegal(s, p)
    ensures |ms| == Count(s, Empty)
  {
    EmptiesBeforeFacts(s.board, s.m, s.m);
    EmptiesBefore(s.board, s.m)
  }

  /** The legal moves come in row-major order, hence without duplicates. */
  lemma LegalMovesRowMajor(s: GameState)
    requires WellFormed(s)
    ensures RowMajor(LegalMoves(s))
  {
    EmptiesBeforeFacts(s.board, s.m, s.m);
  }

  /** There are m² cells: the empty ones (the legal moves) and the occupied ones. */
  lemma LegalMovesPlusOccupied(s: GameState)
    requires WellFormed(s)
    ensures |LegalMoves(s)| + Count(s, Mark(X)) + Count(s, Mark(O)) == s.m * s.m
  {
    CountRowsPartition(s.board, s.m, s.m);
  }

  /** The first state offers every one of the m² cells. */
  lemma NewGameMoves(m: int, k: int)
    requires 1 <= k <= m
    ensures |LegalMoves(NewGame(m, k))| == m * m
    ensures Count(NewGame(m, k), Mark(X)) == 0 && Count(NewGame(m, k), Mark(O)) == 0
  {
    var s := NewGame(m, k);
    CountRowsAbsent(s.board, m, Mark(X));
    CountRowsAbsent(s.board, m, Mark(O));
    LegalMovesPlusOccupied(s);
  }

  // ---------------------------------------------------------------------------
  // Runs of marks and the win check

  /** One of the eight compass steps. */
  predicate IsDirection(dr: int, dc: int) {
    -1 <= dr <= 1 && -1 <= dc <= 1 && (dr != 0 || dc != 0)
  }

  /** The coordinate `t` steps of `d` away from `x`, i.e. x + t*d. */
  function Step(x: int, d: int, t: int): int
    requires -1 <= d <= 1
  {
    if d == 1 then x + t else if d == -1 then x - t else x
  }

  /** Cells left before leaving the board, along the axis that moves. */
  function Room(m: int, r: int, c: int, dr: int, dc: int): int {
    if dr == 1 then m - r else if dr == -1 then r + 1 else if dc == 1 then m - c else c + 1
  }

  predicate Owned(b: Board, m: int, r: int, c: int, p: Player)
    requires IsSquare(b, m)
  {
    InBounds(m, r, c) && b[r][c] == Mark(p)
  }

  /** The cell `t` steps from `pos` along (dr, dc) belongs to `p`. */
  predicate OwnedAt(b: Board, m: int, pos: Position, dr: int, dc: int, t: int, p: Player)
    requires IsSquare(b, m) && -1 <= dr <= 1 && -1 <= dc <= 1
  {
    Owned(b, m, Step(pos.row, dr, t), Step(pos.col, dc, t), p)
  }

  /** The number of consecutive cells of `p` from (r, c) on, stepping by (dr, dc). */
  function RunLength(b: Board, m: int, r: int, c: int, dr: int, dc: int, p: Player): nat
    requires IsSquare(b, m) && IsDirection(dr, dc)
    decreases if InBounds(m, r, c) then Room(m, r, c, dr, dc) else 0
  {
    if Owned(b, m, r, c, p) then 1 + RunLength(b, m, r + dr, c + dc, dr, dc, p) else 0
  }

  /**
   * A run counted from `j` steps away from `pos` covers exactly the steps
   * j .. j+n-1, and the step after it is not the player's.
   */
  lemma {:induction false} RunLengthSpan(b: Board, m: int, pos: Position, dr: int, dc: int, j: int, p: Player)
    requires IsSquare(b, m) && IsDirection(dr, dc)
    ensures var n := RunLength(b, m, Step(pos.row, dr, j), Step(pos.col, dc, j), dr, dc, p);
      && (forall t :: j <= t < j + n ==> OwnedAt(b, m, pos, dr, dc, t, p))
      && !OwnedAt(b, m, pos, dr, dc, j + n, p)
    decreases if InBounds(m, Step(pos.row, dr, j), Step(pos.col, dc, j))
              then Room(m, Step(pos.row, dr, j), Step(pos.col, dc, j), dr, dc) else 0
  {
    if OwnedAt(b, m, pos, dr, dc, j, p) {
      assert Step(pos.row, dr, j) + dr == Step(pos.row, dr, j + 1);
      assert Step(pos.col, dc, j) + dc == Step(pos.col, dc, j + 1);
      RunLengthSpan(b, m, pos, dr, dc, j + 1, p);
    }
  }

  /** `countConsecutive` from a board cell never counts more than m - 1 cells. */
  lemma RunLengthBound(b: Board, m: int, pos: Position, dr: int, dc: int, p: Player)
    requires IsSquare(b, m) && IsDirection(dr, dc) && InBounds(m, pos.row, pos.col)
    ensures RunLength(b, m, pos.row + dr, pos.col + dc, dr, dc, p) <= m - 1
  {
    var n := RunLength(b, m, pos.row + dr, pos.col + dc, dr, dc, p);
    RunLengthSpan(b, m, pos, dr, dc, 1, p);
    if n > 0 {
      assert OwnedAt(b, m, pos, dr, dc, n, p);
    }
  }

  /** The four axes through a cell: horizontal, vertical, diagonal, anti-diagonal. */
  const Axes: seq<(int, int)> := [(0, 1), (1, 0), (1, 1), (1, -1)]

  /** The placed cell plus the runs of `p` on both sides of it along one axis. */
  function AxisCount(b: Board, m: int, pos: Position, dr: int, dc: int, p: Player): nat
    requires IsSquare(b, m) && IsDirection(dr, dc)
  {
    1 + RunLength(b, m, pos.row + dr, pos.col + dc, dr, dc, p)
      + RunLength(b, m, pos.row - dr, pos.col - dc, -dr, -dc, p)
  }

  predicate WinsAlongSomeAxis(b: Board, m: int, k: int, pos: Position, p: Player)
    requires IsSquare(b, m)
  {
    exists i :: 0 <= i < 4 && AxisCount(b, m, pos, Axes[i].0, Axes[i].1, p) >= k
  }

  /** `calculateWinner`: the owner of the last move's cell if one of its axes reaches k. */
  function WinnerAt(b: Board, m: int, k: int, last: Position): Option<Player>
    requires IsSquare(b, m) && InBounds(m, last.row, last.col)
  {
    match b[last.row][last.col]
    case Empty => None
    case Mark(p) => if WinsAlongSomeAxis(b, m, k, last, p) then Some(p) else None
  }

  /** k cells of `p` in a row along (dr, dc), one of them `pos`: steps a .. a+k-1 with a <= 0 < a+k. */
  predicate LineThrough(b: Board, m: int, k: int, pos: Position, dr: int, dc: int, p: Player)
    requires IsSquare(b, m) && -1 <= dr <= 1 && -1 <= dc <= 1
  {
    exists a :: -k < a <= 0 && WindowOwned(b, m, pos, dr, dc, a, k, p)
  }

  /** Steps a .. a+k-1 from `pos` along (dr, dc) all belong to `p`. */
  predicate WindowOwned(b: Board, m: int, pos: Position, dr: int, dc: int, a: int, k: int, p: Player)
    requires IsSquare(b, m) && -1 <= dr <= 1 && -1 <= dc <= 1
  {
    forall u :: a <= u < a + k ==> OwnedAt(b, m, pos, dr, dc, u, p)
  }

  lemma WindowCell(b: Board, m: int, pos: Position, dr: int, dc: int, a: int, k: int, u: int, p: Player)
    requires IsSquare(b, m) && IsDirection(dr, dc)
    ensures WindowOwned(b, m, pos, dr, dc, a, k, p) && a <= u < a + k ==> OwnedAt(b, m, pos, dr, dc, u, p)
  {
  }

  /** Stepping t times backwards is stepping -t times forwards. */
  lemma OwnedAtReversed(b: Board, m: int, pos: Position, dr: int, dc: int, t: int, p: Player)
    requires IsSquare(b, m) && IsDirection(dr, dc)
    ensures OwnedAt(b, m, pos, -dr, -dc, t, p) == OwnedAt(b, m, pos, dr, dc, -t, p)
  {
    assert Step(pos.row, -dr, t) == Step(pos.row, dr, -t);
    assert Step(pos.col, -dc, t) == Step(pos.col, dc, -t);
  }

  /** The backward run, read as negative steps along (dr, dc). */
  lemma BackwardRun(b: Board, m: int, pos: Position, dr: int, dc: int, p: Player)
    requires IsSquare(b, m) && IsDirection(dr, dc)
    ensures var g: int := RunLength(b, m, pos.row - dr, pos.col - dc, -dr, -dc, p);
      && (forall u :: -g <= u < 0 ==> OwnedAt(b, m, pos, dr, dc, u, p))
      && !OwnedAt(b, m, pos, dr, dc, -(g + 1), p)
  {
    BackwardRunCells(b, m, pos, dr, dc, p);
    BackwardRunEnd(b, m, pos, dr, dc, p);
  }

  lemma BackwardRunCells(b: Board, m: int, pos: Position, dr: int, dc: int, p: Player)
    requires IsSquare(b, m) && IsDirection(dr, dc)
    ensures var g: int := RunLength(b, m, pos.row - dr, pos.col - dc, -dr, -dc, p);
      forall u :: -g <= u < 0 ==> OwnedAt(b, m, pos, dr, dc, u, p)
  {
    var g: int := RunLength(b, m, pos.row - dr, pos.col - dc, -dr, -dc, p);
    assert Step(pos.row, -dr, 1) == pos.row - dr && Step(pos.col, -dc, 1) == pos.col - dc;
    RunLengthSpan(b, m, pos, -dr, -dc, 1, p);
    forall u | -g <= u < 0
      ensures OwnedAt(b, m, pos, dr, dc, u, p)
    {
      OwnedAtReversed(b, m, pos, dr, dc, -u, p);
    }
  }

  lemma BackwardRunEnd(b: Board, m: int, pos: Position, dr: int, dc: int, p: Player)
    requires IsSquare(b, m) && IsDirection(dr, dc)
    ensures var g: int := RunLength(b, m, pos.row - dr, pos.col - dc, -dr, -dc, p);
      !OwnedAt(b, m, pos, dr, dc, -(g + 1), p)
  {
    var g: int := RunLength(b, m, pos.row - dr, pos.col - dc, -dr, -dc, p);
    assert Step(pos.row, -dr, 1) == pos.row - dr && Step(pos.col, -dc, 1) == pos.col - dc;
    RunLengthSpan(b, m, pos, -dr, -dc, 1, p);
    OwnedAtReversed(b, m, pos, dr, dc, g + 1, p);
  }

  /** The cells of `p` around `pos` on one axis form the steps -g .. f, bounded by non-`p` cells. */
  lemma AxisInterval(b: Board, m: int, pos: Position, dr: int, dc: int, p: Player)
    requires IsSquare(b, m) && IsDirection(dr, dc)
    requires Owned(b, m, pos.row, pos.col, p)
    ensures var f: int := RunLength(b, m, pos.row + dr, pos.col + dc, dr, dc, p);
      var g: int := RunLength(b, m, pos.row - dr, pos.col - dc, -dr, -dc, p);
      && (forall u :: -g <= u <= f ==> OwnedAt(b, m, pos, dr, dc, u, p))
      && !OwnedAt(b, m, pos, dr, dc, f + 1, p)
      && !OwnedAt(b, m, pos, dr, dc, -(g + 1), p)
  {
    RunLengthSpan(b, m, pos, dr, dc, 1, p);
    BackwardRun(b, m, pos, dr, dc, p);
    assert OwnedAt(b, m, pos, dr, dc, 0, p);
  }

  /** An axis count of at least k yields a window of k owned cells through `pos`. */
  lemma LineFromCount(b: Board, m: int, k: int, pos: Position, dr: int, dc: int, p: Player)
    requires IsSquare(b, m) && IsDirection(dr, dc) && 1 <= k
    requires Owned(b, m, pos.row, pos.col, p)
    requires AxisCount(b, m, pos, dr, dc, p) >= k
    ensures LineThrough(b, m, k, pos, dr, dc, p)
  {
    var f: int := RunLength(b, m, pos.row + dr, pos.col + dc, dr, dc, p);
    var g: int := RunLength(b, m, pos.row - dr, pos.col - dc, -dr, -dc, p);
    AxisInterval(b, m, pos, dr, dc, p);
    var a := if g < k - 1 then -g else -(k - 1);
    assert -g <= a && a + k - 1 <= f;
    assert WindowOwned(b, m, pos, dr, dc, a, k, p);
  }

  /** A window of k owned cells through `pos` lies between the ends of the axis runs. */
  lemma CountFromLine(b: Board, m: int, k: int, pos: Position, dr: int, dc: int, p: Player)
    requires IsSquare(b, m) && IsDirection(dr, dc) && 1 <= k
    requires Owned(b, m, pos.row, pos.col, p)
    requires LineThrough(b, m, k, pos, dr, dc, p)
    ensures AxisCount(b, m, pos, dr, dc, p) >= k
  {
    var f: int := RunLength(b, m, pos.row + dr, pos.col + dc, dr, dc, p);
    var g: int := RunLength(b, m, pos.row - dr, pos.col - dc, -dr, -dc, p);
    AxisInterval(b, m, pos, dr, dc, p);
    var a :| -k < a <= 0 && WindowOwned(b, m, pos, dr, dc, a, k, p);
    // The window cannot reach past either non-owned end of the interval.
    WindowCell(b, m, pos, dr, dc, a, k, -(g + 1), p);
    WindowCell(b, m, pos, dr, dc, a, k, f + 1, p);
    assert -g <= a && a + k - 1 <= f;
  }

  /**
   * The local count of `calculateWinner` is exact: for an owned cell, the
   * axis count reaches k iff k consecutive cells of the player lie on that
   * axis through the cell.
   */
  lemma AxisCountMeansLine(b: Board, m: int, k: int, pos: Position, dr: int, dc: int, p: Player)
    requires IsSquare(b, m) && IsDirection(dr, dc) && 1 <= k
    requires Owned(b, m, pos.row, pos.col, p)
    ensures AxisCount(b, m, pos, dr, dc, p) >= k <==> LineThrough(b, m, k, pos, dr, dc, p)
  {
    if AxisCount(b, m, pos, dr, dc, p) >= k {
      LineFromCount(b, m, k, pos, dr, dc, p);
    }
    if LineThrough(b, m, k, pos, dr, dc, p) {
      CountFromLine(b, m, k, pos, dr, dc, p);
    }
  }

  /** The winner check declares p the winner iff p has k in a row through the last move. */
  lemma WinnerAtMeansLine(b: Board, m: int, k: int, last: Position, p: Player)
    requires IsSquare(b, m) && 1 <= k && InBounds(m, last.row, last.col)
    requires b[last.row][last.col] == Mark(p)
    ensures WinnerAt(b, m, k, last) == Some(p) <==>
      exists i :: 0 <= i < 4 && LineThrough(b, m, k, last, Axes[i].0, Axes[i].1, p)
  {
    forall i | 0 <= i < 4
      ensures AxisCount(b, m, last, Axes[i].0, Axes[i].1, p) >= k
          <==> LineThrough(b, m, k, last, Axes[i].0, Axes[i].1, p)
    {
      AxisCountMeansLine(b, m, k, last, Axes[i].0, Axes[i].1, p);
    }
  }

  /** `isBoardFull`: no empty cell is left. */
  predicate IsFull(b: Board, m: int)
    requires IsSquare(b, m)
  {
    forall r, c :: 0 <= r < m && 0 <= c < m ==> b[r][c] != Empty
  }

  /** A full board is exactly a board without legal moves. */
  lemma FullIffNoMoves(s: GameState)
    requires WellFormed(s)
    ensures IsFull(s.board, s.m) <==> LegalMoves(s) == []
  {
    if !IsFull(s.board, s.m) {
      var r, c :| InBounds(s.m, r, c) && s.board[r][c] == Empty;
      assert IsLegal(s, Position(r, c));
    }
    if LegalMoves(s) != [] {
      assert IsLegal(s, LegalMoves(s)[0]);
    }
  }

  // ---------------------------------------------------------------------------
  // makeMove

  /** The state `makeMove` returns for a legal move. */
  function Successor(s: GameState, p: Position): (t: GameState)
    requires WellFormed(s) && IsLegal(s, p)
    ensures WellFormed(t) && t.m == s.m && t.k == s.k
    ensures |LegalMoves(t)| == |LegalMoves(s)| - 1
  {
    var b := s.board[p.row := s.board[p.row][p.col := Mark(s.currentPlayer)]];
    var w := WinnerAt(b, s.m, s.k, p);
    var t := GameState(b, Opponent(s.currentPlayer), s.m, s.k, w, w.Some? || IsFull(b, s.m));
    CountRowUpdate(s.board[p.row], p.col, Mark(s.currentPlayer), Empty);
    CountRowsUpdate(s.board, s.m, p.row, b[p.row], Empty);
    t
  }

  /** What `makeMove` produces: a new state, or the occupied-cell error. */
  datatype MoveOutcome = Moved(state: GameState) | Occupied(at: Position)

  /** `makeMove` on an in-bounds cell (an out-of-bounds index is a crash in the source). */
  function TryMove(s: GameState, p: Position): (r: MoveOutcome)
    requires WellFormed(s) && InBounds(s.m, p.row, p.col)
    ensures r.Occupied? <==> s.board[p.row][p.col] != Empty
    ensures r.Occupied? ==> r.at == p
  {
    if s.board[p.row][p.col] == Empty then Moved(Successor(s, p)) else Occupied(p)
  }

  /**
   * The new board differs from the old one only at the target, which now
   * holds the mover; the turn passes to the opponent.
   */
  lemma SuccessorBoard(s: GameState, p: Position)
    requires WellFormed(s) && IsLegal(s, p)
    ensures Successor(s, p).board[p.row][p.col] == Mark(s.currentPlayer)
    ensures forall r, c :: InBounds(s.m, r, c) && (r, c) != (p.row, p.col) ==>
      Successor(s, p).board[r][c] == s.board[r][c]
    ensures Successor(s, p).currentPlayer == Opponent(s.currentPlayer)
  {
  }

  /** The legal moves after a move are the old ones minus the target. */
  lemma SuccessorLegalMoves(s: GameState, p: Position)
    requires WellFormed(s) && IsLegal(s, p)
    ensures forall q :: q in LegalMoves(Successor(s, p)) <==> q in LegalMoves(s) && q != p
  {
    SuccessorBoard(s, p);
  }

  /**
   * The winner after a move is nobody or the mover; it is the mover iff one
   * of the four axes through the target reaches k, which happens iff the
   * mover has k in a row through the target.
   */
  lemma SuccessorWinner(s: GameState, p: Position)
    requires WellFormed(s) && IsLegal(s, p)
    ensures Successor(s, p).winner == None || Successor(s, p).winner == Some(s.currentPlayer)
    ensures Successor(s, p).winner == Some(s.currentPlayer) <==>
      exists i :: 0 <= i < 4 && AxisCount(Successor(s, p).board, s.m, p, Axes[i].0, Axes[i].1, s.currentPlayer) >= s.k
    ensures Successor(s, p).winner == Some(s.currentPlayer) <==>
      exists i :: 0 <= i < 4 && LineThrough(Successor(s, p).board, s.m, s.k, p, Axes[i].0, Axes[i].1, s.currentPlayer)
    ensures Successor(s, p).isTerminal <==>
      Successor(s, p).winner.Some? || LegalMoves(Successor(s, p)) == []
  {
    var t := Successor(s, p);
    SuccessorBoard(s, p);
    WinnerAtMeansLine(t.board, s.m, s.k, p, s.currentPlayer);
    FullIffNoMoves(t);
  }

  // ---------------------------------------------------------------------------
  // States reachable by play

  /**
   * What every state built by `NewGame` and `makeMove` satisfies: the terminal
   * flag is "won or full", a winner is the player who just moved, and the
   * marks alternate starting with X.
   */
  predicate Valid(s: GameState) {
    && WellFormed(s)
    && (s.isTerminal <==> s.winner.Some? || IsFull(s.board, s.m))
    && (s.winner.Some? ==> s.winner.value == Opponent(s.currentPlayer))
    && Count(s, Mark(X)) == Count(s, Mark(O)) + (if s.currentPlayer == O then 1 else 0)
  }

  lemma NewGameValid(m: int, k: int)
    requires 1 <= k <= m
    ensures Valid(NewGame(m, k))
  {
    var s := NewGame(m, k);
    NewGameMoves(m, k);
    assert s.board[0][0] == Empty;
  }

  /** Every move keeps a state valid, whoever makes it. */
  lemma SuccessorValid(s: GameState, p: Position)
    requires Valid(s) && IsLegal(s, p)
    ensures Valid(Successor(s, p))
  {
    var t := Successor(s, p);
    var mark := Mark(s.currentPlayer);
    var row := s.board[p.row][p.col := mark];
    CountRowUpdate(s.board[p.row], p.col, mark, Mark(X));
    CountRowUpdate(s.board[p.row], p.col, mark, Mark(O));
    CountRowsUpdate(s.board, s.m, p.row, row, Mark(X));
    CountRowsUpdate(s.board, s.m, p.row, row, Mark(O));
    SuccessorWinner(s, p);
    FullIffNoMoves(t);
  }

  /** A non-terminal valid state has a move to make. */
  lemma NonTerminalHasMoves(s: GameState)
    requires Valid(s) && !s.isTerminal
    ensures LegalMoves(s) != []
  {
    FullIffNoMoves(s);
  }

  /** A state with a winner is terminal. */
  lemma WinnerIsTerminal(s: GameState)
    requires Valid(s) && s.winner.Some?
    ensures s.isTerminal
  {
  }

  /** The state after playing `moves` in turn, or None once one of them is not legal. */
  function Play(s: GameState, moves: seq<Position>): Option<GameState>
    requires WellFormed(s)
    decreases |moves|
  {
    if moves == [] then Some(s)
    else if IsLegal(s, moves[0]) then Play(Successor(s, moves[0]), moves[1..])
    else None
  }

  /** Playing a legal first move, then the rest. */
  lemma PlayFirst(s: GameState, p: Position, rest: seq<Position>)
    requires WellFormed(s) && IsLegal(s, p)
    ensures Play(s, [p] + rest) == Play(Successor(s, p), rest)
  {
    assert ([p] + rest)[1..] == rest;
  }

  /** On a 3×3 board whose top row holds X, X and an empty cell, X filling it wins. */
  lemma TopRowCompleted(s: GameState)
    requires WellFormed(s) && s.m == 3 && s.k == 3 && s.currentPlayer == X
    requires s.board[0][0] == Mark(X) && s.board[0][1] == Mark(X) && s.board[0][2] == Empty
    ensures IsLegal(s, Position(0, 2))
    ensures var t := Successor(s, Position(0, 2)); t.isTerminal && t.winner == Some(X) && Utility(t) == 1
  {
    var t := Successor(s, Position(0, 2));
    SuccessorBoard(s, Position(0, 2));
    var b := t.board;
    assert b[0][0] == Mark(X) && b[0][1] == Mark(X) && b[0][2] == Mark(X);
    assert RunLength(b, 3, 0, 3, 0, 1, X) == 0;
    assert RunLength(b, 3, 0, -1, 0, -1, X) == 0;
    assert RunLength(b, 3, 0, 1, 0, -1, X) == 2;
    assert AxisCount(b, 3, Position(0, 2), Axes[0].0, Axes[0].1, X) >= 3;
  }

  /** X completing the top row of a 3×3 board wins, ends the game and scores +1. */
  lemma TopRowWin()
    ensures var r := Play(NewGame(3, 3), [Position(0, 0), Position(1, 0), Position(0, 1), Position(1, 1), Position(0, 2)]);
      && r.Some? && r.value.isTerminal && r.value.winner == Some(X) && Utility(r.value) == 1
  {
    var s0 := NewGame(3, 3);
    var s1 := Successor(s0, Position(0, 0));
    SuccessorBoard(s0, Position(0, 0));
    var s2 := Successor(s1, Position(1, 0));
    SuccessorBoard(s1, Position(1, 0));
    var s3 := Successor(s2, Position(0, 1));
    SuccessorBoard(s2, Position(0, 1));
    var s4 := Successor(s3, Position(1, 1));
    SuccessorBoard(s3, Position(1, 1));
    TopRowCompleted(s4);
    var s5 := Successor(s4, Position(0, 2));
    PlayFirst(s4, Position(0, 2), []);
    PlayFirst(s3, Position(1, 1), [Position(0, 2)]);
    PlayFirst(s2, Position(0, 1), [Position(1, 1), Position(0, 2)]);
    PlayFirst(s1, Position(1, 0), [Position(0, 1), Position(1, 1), Position(0, 2)]);
    PlayFirst(s0, Position(0, 0), [Position(1, 0), Position(0, 1), Position(1, 1), Position(0, 2)]);
    assert Play(s5, []) == Some(s5);
  }

  // ---------------------------------------------------------------------------
  // Rendering

  function CellChar(c: Cell): char {
    match c
    case Empty => '.'
    case Mark(p) => Symbol(p)[0]
  }

  /** The first `j` cells of a row, each followed by a space. */
  function RowPrefixText(row: seq<Cell>, j: nat): (r: string)
    requires j <= |row|
    ensures |r| == 2 * j
  {
    if j == 0 then [] else RowPrefixText(row, j - 1) + [CellChar(row[j - 1]), ' ']
  }

  /** `toString` of the first `i` rows: each row's cells, then a newline. */
  function Render(b: Board, i: nat): string
    requires i <= |b|
  {
    if i == 0 then [] else Render(b, i - 1) + RowPrefixText(b[i - 1], |b[i - 1]|) + "\n"
  }

  lemma {:induction false} RowPrefixTextAt(row: seq<Cell>, j: nat, x: nat)
    requires x < j <= |row|
    ensures RowPrefixText(row, j)[2 * x] == CellChar(row[x])
    ensures RowPrefixText(row, j)[2 * x + 1] == ' '
    decreases j
  {
    if x < j - 1 {
      RowPrefixTextAt(row, j - 1, x);
    }
  }

  /** Line `r` of a rendering whose lines are 2m + 1 characters long. */
  function LineOf(text: string, m: nat, r: nat): string
    requires (r + 1) * (2 * m + 1) <= |text|
  {
    text[r * (2 * m + 1)..(r + 1) * (2 * m + 1)]
  }

  lemma MulStep(a: int, w: int)
    ensures (a + 1) * w == a * w + w
  {
  }

  lemma SliceOfConcat(x: string, y: string, lo: nat, hi: nat)
    requires lo <= hi <= |x|
    ensures (x + y)[lo..hi] == x[lo..hi]
  {
  }

  lemma SuffixOfConcat(x: string, y: string)
    ensures (x + y)[|x|..|x| + |y|] == y
  {
  }

  lemma {:induction false} RenderLength(b: Board, m: nat, i: nat)
    requires IsSquare(b, m) && i <= m
    ensures |Render(b, i)| == i * (2 * m + 1)
    decreases i
  {
    if i > 0 {
      RenderLength(b, m, i - 1);
      assert (i - 1) * (2 * m + 1) + (2 * m + 1) == i * (2 * m + 1);
    }
  }

  /**
   * The text has one line of 2m + 1 characters per row: the row's cells,
   * each followed by a space, then a newline.
   */
  lemma {:induction false} RenderLine(b: Board, m: nat, i: nat, r: nat)
    requires IsSquare(b, m) && r < i <= m
    ensures (r + 1) * (2 * m + 1) <= |Render(b, i)|
    ensures LineOf(Render(b, i), m, r) == RowPrefixText(b[r], m) + "\n"
    decreases i
  {
    if r < i - 1 {
      RenderLine(b, m, i - 1, r);
      RenderExtends(b, m, i, r * (2 * m + 1), (r + 1) * (2 * m + 1));
    } else {
      RenderLast(b, m, i);
    }
  }

  /** Rendering one more row leaves the text before it as it was. */
  lemma RenderExtends(b: Board, m: nat, i: nat, lo: nat, hi: nat)
    requires IsSquare(b, m) && 0 < i <= m && lo <= hi <= |Render(b, i - 1)|
    ensures hi <= |Render(b, i)| && Render(b, i)[lo..hi] == Render(b, i - 1)[lo..hi]
  {
    SliceOfConcat(Render(b, i - 1), RowPrefixText(b[i - 1], m) + "\n", lo, hi);
  }

  /** The last row rendered is the last line of the text. */
  lemma RenderLast(b: Board, m: nat, i: nat)
    requires IsSquare(b, m) && 0 < i <= m
    ensures i * (2 * m + 1) <= |Render(b, i)|
    ensures Render(b, i)[(i - 1) * (2 * m + 1)..i * (2 * m + 1)] == RowPrefixText(b[i - 1], m) + "\n"
  {
    var prev := Render(b, i - 1);
    var line := RowPrefixText(b[i - 1], m) + "\n";
    RenderLength(b, m, i - 1);
    MulStep(i - 1, 2 * m + 1);
    assert Render(b, i) == prev + line;
    SuffixOfConcat(prev, line);
  }

  /** Within a line, character 2c shows cell c and character 2c + 1 is a space. */
  lemma RenderCell(b: Board, m: nat, r: nat, c: nat)
    requires IsSquare(b, m) && r < m && c < m
    ensures (r + 1) * (2 * m + 1) <= |Render(b, m)|
    ensures LineOf(Render(b, m), m, r)[2 * c] == CellChar(b[r][c])
    ensures LineOf(Render(b, m), m, r)[2 * c + 1] == ' '
    ensures LineOf(Render(b, m), m, r)[2 * m] == '\n'
  {
    RenderLine(b, m, m, r);
    RowPrefixTextAt(b[r], m, c);
  }

  // ---------------------------------------------------------------------------
  // The source's loops, proved against the functions above

  /** `getLegalMoves`: a row-major scan collecting the empty cells. */
  method GetLegalMoves(s: GameState) returns (moves: seq<Position>)
    requires WellFormed(s)
    ensures moves == LegalMoves(s)
  {
    moves := [];
    var i := 0;
    while i < s.m
      invariant 0 <= i <= s.m
      invariant moves == EmptiesBefore(s.board, i)
    {
      var j := 0;
      while j < s.m
        invariant 0 <= j <= s.m
        invariant moves == EmptiesBefore(s.board, i) + RowEmpties(s.board, i, j)
      {
        if s.board[i][j] == Empty {
          moves := moves + [Position(i, j)];
        }
        j := j + 1;
      }
      i := i + 1;
    }
  }

  /** `countConsecutive`: walk from start + (dr, dc) while the cells are the player's. */
  method CountConsecutive(b: Board, m: int, start: Position, dr: int, dc: int, p: Player)
    returns (count: nat)
    requires IsSquare(b, m) && IsDirection(dr, dc)
    ensures count == RunLength(b, m, start.row + dr, start.col + dc, dr, dc, p)
  {
    count := 0;
    var row := start.row + dr;
    var col := start.col + dc;
    while 0 <= row < m && 0 <= col < m && b[row][col] == Mark(p)
      invariant count + RunLength(b, m, row, col, dr, dc, p)
             == RunLength(b, m, start.row + dr, start.col + dc, dr, dc, p)
      decreases if InBounds(m, row, col) then Room(m, row, col, dr, dc) else 0
    {
      count := count + 1;
      row := row + dr;
      col := col + dc;
    }
  }

  /** `calculateWinner`: try the four axes in turn, stopping at the first that reaches k. */
  method CalculateWinner(b: Board, m: int, k: int, last: Position) returns (w: Option<Player>)
    requires IsSquare(b, m) && InBounds(m, last.row, last.col)
    ensures w == WinnerAt(b, m, k, last)
  {
    var cell := b[last.row][last.col];
    if cell == Empty {
      return None;
    }
    var player := cell.owner;
    var i := 0;
    while i < 4
      invariant 0 <= i <= 4
      invariant forall j :: 0 <= j < i ==> AxisCount(b, m, last, Axes[j].0, Axes[j].1, player) < k
    {
      var (dr, dc) := Axes[i];
      var count := CountAxis(b, m, last, dr, dc, player);
      if count >= k {
        return Some(player);
      }
      i := i + 1;
    }
    return None;
  }

  /** One axis of `calculateWinner`: 1, plus the run forward, plus the run backward. */
  method CountAxis(b: Board, m: int, last: Position, dr: int, dc: int, player: Player) returns (count: nat)
    requires IsSquare(b, m) && IsDirection(dr, dc)
    ensures count == AxisCount(b, m, last, dr, dc, player)
  {
    count := 1;
    var forward := CountConsecutive(b, m, last, dr, dc, player);
    count := count + forward;
    var backward := CountConsecutive(b, m, last, -dr, -dc, player);
    count := count + backward;
  }

  /** `isBoardFull`: scan for an empty cell. */
  method IsBoardFull(b: Board, m: int) returns (full: bool)
    requires IsSquare(b, m)
    ensures full == IsFull(b, m)
  {
    var i := 0;
    while i < m
      invariant 0 <= i <= m
      invariant forall r, c :: 0 <= r < i && 0 <= c < m ==> b[r][c] != Empty
    {
      var j := 0;
      while j < m
        invariant 0 <= j <= m
        invariant forall c :: 0 <= c < j ==> b[i][c] != Empty
      {
        if b[i][j] == Empty {
          return false;
        }
        j := j + 1;
      }
      i := i + 1;
    }
    return true;
  }

  /** `makeMove`: refuse an occupied cell, else copy the board, write the mark and recompute. */
  method MakeMove(s: GameState, move: Position) returns (r: MoveOutcome)
    requires WellFormed(s) && InBounds(s.m, move.row, move.col)
    ensures r == TryMove(s, move)
  {
    if s.board[move.row][move.col] != Empty {
      return Occupied(move);
    }
    var newBoard := s.board[move.row := s.board[move.row][move.col := Mark(s.currentPlayer)]];
    var nextPlayer := Opponent(s.currentPlayer);
    var newWinner := CalculateWinner(newBoard, s.m, s.k, move);
    var full := IsBoardFull(newBoard, s.m);
    var newIsTerminal := newWinner.Some? || full;
    return Moved(GameState(newBoard, nextPlayer, s.m, s.k, newWinner, newIsTerminal));
  }

  /** `toString`: one line per row, each cell's symbol followed by a space. */
  method ToString(s: GameState) returns (text: string)
    requires WellFormed(s)
    ensures text == Render(s.board, s.m)
  {
    text := [];
    var i := 0;
    while i < s.m
      invariant 0 <= i <= s.m
      invariant text == Render(s.board, i)
    {
      var j := 0;
      while j < s.m
        invariant 0 <= j <= s.m
        invariant text == Render(s.board, i) + RowPrefixText(s.board[i], j)
      {
        text := text + [CellChar(s.board[i][j]), ' '];
        j := j + 1;
      }
      text := text + "\n";
      i := i + 1;
    }
  }
}
