/**
 * The knight's-tour puzzle (src/app/knights-tour/page.tsx): a knight is dropped on
 * an N x N board and must visit every cell once with knight moves.  The component's
 * state is a board size, the knight's cell, the visited grid, the move count and the
 * started / game-over / fail-reason flags; its handlers replace these wholesale.
 */
module KnightsTour {
  import opened Wrappers

  type Cell = (int, int)

  /** The board sizes on offer. */
  const BoardSizes: seq<int> := [5, 6, 7, 8]

  /** The eight knight offsets, in the order the component lists them. */
  const KnightMoves: seq<(int, int)> := [(2, 1), (1, 2), (-1, 2), (-2, 1), (-2, -1), (-1, -2), (1, -2), (2, -1)]

  function Abs(x: int): int {
    if x < 0 then -x else x
  }

  /** An L-shaped jump: one cell one way and two the other. */
  predicate IsKnightOffset(d: (int, int)) {
    (Abs(d.0) == 1 && Abs(d.1) == 2) || (Abs(d.0) == 2 && Abs(d.1) == 1)
  }

  /** The offset table holds each of the eight L-shaped jumps exactly once. */
  lemma KnightMovesAreTheJumps()
    ensures |KnightMoves| == 8
    ensures forall d :: d in KnightMoves <==> IsKnightOffset(d)
    ensures forall i, j :: 0 <= i < j < |KnightMoves| ==> KnightMoves[i] != KnightMoves[j]
  {
    forall d | IsKnightOffset(d)
      ensures d in KnightMoves
    {
      if Abs(d.0) == 1 {
        assert d.0 == 1 || d.0 == -1;
        assert d.1 == 2 || d.1 == -2;
      } else {
        assert d.0 == 2 || d.0 == -2;
        assert d.1 == 1 || d.1 == -1;
      }
    }
  }

  /** `isKnightMove`: p is one knight jump from k. */
  predicate KnightStep(k: Cell, p: Cell) {
    (p.0 - k.0, p.1 - k.1) in KnightMoves
  }

  predicate OnBoard(n: int, p: Cell) {
    0 <= p.0 < n && 0 <= p.1 < n
  }

  /** The grid is n rows of n cells. */
  predicate Square(g: seq<seq<bool>>, n: int) {
    |g| == n && forall i :: 0 <= i < |g| ==> |g[i]| == n
  }

  /** The all-false n x n grid. */
  function Blank(n: nat): (g: seq<seq<bool>>)
    ensures Square(g, n) && forall i, j :: 0 <= i < n && 0 <= j < n ==> !g[i][j]
  {
    seq(n, _ => seq(n, _ => false))
  }

  /** The grid with cell p set. */
  function Mark(g: seq<seq<bool>>, p: Cell): (h: seq<seq<bool>>)
    requires 0 <= p.0 < |g| && 0 <= p.1 < |g[p.0]|
    ensures |h| == |g| && forall i :: 0 <= i < |g| ==> |h[i]| == |g[i]|
    ensures forall i, j :: 0 <= i < |g| && 0 <= j < |g[i]| ==> h[i][j] == (g[i][j] || (i, j) == p)
  {
    g[p.0 := g[p.0][p.1 := true]]
  }

  // ---------------------------------------------------------------------------
  // getNextMoves
  // ---------------------------------------------------------------------------

  /** The jump targets from k, in offset order (the `map` step). */
  function Targets(k: Cell): (ts: seq<Cell>)
    ensures |ts| == |KnightMoves|
    ensures forall i :: 0 <= i < |ts| ==> ts[i] == (k.0 + KnightMoves[i].0, k.1 + KnightMoves[i].1)
  {
    seq(|KnightMoves|, i requires 0 <= i < |KnightMoves| => (k.0 + KnightMoves[i].0, k.1 + KnightMoves[i].1))
  }

  /** The `filter` step: the candidates that are on the board and not yet visited, in order. */
  function KeepFree(cands: seq<Cell>, visited: seq<seq<bool>>): (free: seq<Cell>)
    requires Square(visited, |visited|)
    ensures |free| <= |cands|
    ensures forall p :: p in free <==> p in cands && OnBoard(|visited|, p) && !visited[p.0][p.1]
  {
    if cands == [] then []
    else
      var p := cands[0];
      var rest := KeepFree(cands[1..], visited);
      if 0 <= p.0 < |visited| && 0 <= p.1 < |visited| && !visited[p.0][p.1] then [p] + rest else rest
  }

  /** `getNextMoves`: the unvisited on-board cells one knight jump from k. */
  function NextMoves(k: Cell, visited: seq<seq<bool>>): seq<Cell>
    requires Square(visited, |visited|)
  {
    KeepFree(Targets(k), visited)
  }

  /** At most eight next moves, and exactly the unvisited on-board L-jumps from k. */
  lemma NextMovesAreFreeJumps(k: Cell, visited: seq<seq<bool>>)
    requires Square(visited, |visited|)
    ensures |NextMoves(k, visited)| <= 8
    ensures forall p :: p in NextMoves(k, visited) <==>
      IsKnightOffset((p.0 - k.0, p.1 - k.1)) && OnBoard(|visited|, p) && !visited[p.0][p.1]
  {
    KnightMovesAreTheJumps();
    var ts := Targets(k);
    forall p
      ensures p in ts <==> (p.0 - k.0, p.1 - k.1) in KnightMoves
    {
      if (p.0 - k.0, p.1 - k.1) in KnightMoves {
        var i :| 0 <= i < |KnightMoves| && KnightMoves[i] == (p.0 - k.0, p.1 - k.1);
        assert ts[i] == p;
      }
    }
  }

  // ---------------------------------------------------------------------------
  // Counting visited cells
  // ---------------------------------------------------------------------------

  function CountRow(row: seq<bool>): (n: nat)
    ensures n <= |row|
  {
    if row == [] then 0 else (if row[0] then 1 else 0) + CountRow(row[1..])
  }

  /** The number of visited cells. */
  function CountVisited(g: seq<seq<bool>>): nat {
    if g == [] then 0 else CountRow(g[0]) + CountVisited(g[1..])
  }

  lemma {:induction false} CountRowSet(row: seq<bool>, j: int)
    requires 0 <= j < |row| && !row[j]
    ensures CountRow(row[j := true]) == CountRow(row) + 1
  {
    if j > 0 {
      assert row[j := true][1..] == row[1..][j - 1 := true];
      CountRowSet(row[1..], j - 1);
    } else {
      assert row[j := true][1..] == row[1..];
    }
  }

  /** Marking an unvisited cell adds exactly one to the count. */
  lemma {:induction false} CountMark(g: seq<seq<bool>>, p: Cell)
    requires 0 <= p.0 < |g| && 0 <= p.1 < |g[p.0]| && !g[p.0][p.1]
    ensures CountVisited(Mark(g, p)) == CountVisited(g) + 1
  {
    if p.0 == 0 {
      assert Mark(g, p)[1..] == g[1..];
      CountRowSet(g[0], p.1);
    } else {
      assert Mark(g, p)[1..] == Mark(g[1..], (p.0 - 1, p.1));
      CountMark(g[1..], (p.0 - 1, p.1));
    }
  }

  lemma {:induction false} CountRowFull(row: seq<bool>)
    ensures CountRow(row) == |row| <==> forall j :: 0 <= j < |row| ==> row[j]
  {
    if row != [] {
      CountRowFull(row[1..]);
      assert forall j :: 1 <= j < |row| ==> row[j] == row[1..][j - 1];
    }
  }

  /**
   * In a grid of k rows of n cells, at most k * n cells are visited, and all k * n
   * exactly when every cell is.
   */
  lemma {:induction false} CountFull(g: seq<seq<bool>>, n: nat)
    requires forall i :: 0 <= i < |g| ==> |g[i]| == n
    ensures CountVisited(g) <= |g| * n
    ensures CountVisited(g) == |g| * n <==> forall i, j :: 0 <= i < |g| && 0 <= j < n ==> g[i][j]
  {
    if g != [] {
      CountFull(g[1..], n);
      CountRowFull(g[0]);
      assert |g| * n == n + |g[1..]| * n;
      assert forall i, j :: 1 <= i < |g| && 0 <= j < n ==> g[i][j] == g[1..][i - 1][j];
    }
  }

  lemma {:induction false} CountRowZero(row: seq<bool>)
    ensures CountRow(row) == 0 <==> forall j :: 0 <= j < |row| ==> !row[j]
  {
    if row != [] {
      CountRowZero(row[1..]);
      assert forall j :: 1 <= j < |row| ==> row[j] == row[1..][j - 1];
    }
  }

  /** No cell is counted exactly when no cell is visited. */
  lemma {:induction false} CountZero(g: seq<seq<bool>>)
    ensures CountVisited(g) == 0 <==> forall i, j :: 0 <= i < |g| && 0 <= j < |g[i]| ==> !g[i][j]
  {
    if g != [] {
      CountRowZero(g[0]);
      CountZero(g[1..]);
      assert forall i, j :: 1 <= i < |g| && 0 <= j < |g[i]| ==> g[i][j] == g[1..][i - 1][j];
    }
  }

  // ---------------------------------------------------------------------------
  // The component's state and handlers
  // ---------------------------------------------------------------------------

  datatype FailReason = Timeout | NoMove | Success

  datatype Tour = Tour(boardSize: int, knight: Option<Cell>, visited: seq<seq<bool>>, moveCount: int,
                       gameOver: bool, started: bool, failReason: Option<FailReason>)

  /** The state on first render: an 8 x 8 board, nothing placed. */
  function InitialTour(): Tour {
    Tour(8, None, Blank(8), 0, false, false, None)
  }

  /**
   * What every reachable state satisfies: a square grid of the board size, a move
   * count equal to the number of visited cells, the knight on a visited cell once
   * started, and a fail reason only once the game is over.
   */
  predicate ValidTour(t: Tour) {
    t.boardSize in BoardSizes &&
    Square(t.visited, t.boardSize) &&
    t.moveCount == CountVisited(t.visited) &&
    (!t.started ==> t.knight.None? && t.moveCount == 0 && !t.gameOver && t.failReason.None?) &&
    (t.started ==> t.knight.Some? && OnBoard(t.boardSize, t.knight.value) &&
                   t.visited[t.knight.value.0][t.knight.value.1]) &&
    (t.gameOver <==> t.failReason.Some?) &&
    (t.failReason == Some(Success) ==> t.moveCount == t.boardSize * t.boardSize)
  }

  /** `handleSizeChange`: a fresh board of the chosen size (the fail reason is kept). */
  function SizeChange(t: Tour, size: int): Tour
    requires size in BoardSizes
  {
    t.(boardSize := size, knight := None, visited := Blank(size), moveCount := 0, gameOver := false, started := false)
  }

  /** `handleReset`: a fresh board of the current size. */
  function Reset(t: Tour): Tour
    requires t.boardSize in BoardSizes
  {
    Tour(t.boardSize, None, Blank(t.boardSize), 0, false, false, None)
  }

  /** `handleCellClick(x, y)` with `force` false. */
  function Click(t: Tour, x: int, y: int): Tour
    requires t.boardSize in BoardSizes && Square(t.visited, t.boardSize) && OnBoard(t.boardSize, (x, y))
  {
    var n := t.boardSize;
    if !t.started then
      Tour(n, Some((x, y)), Mark(Blank(n), (x, y)), 1, false, true, None)
    else if t.gameOver || t.knight.None? then t
    else if !KnightStep(t.knight.value, (x, y)) || t.visited[x][y] then t
    else
      var v := Mark(t.visited, (x, y));
      var (over, reason) :=
        if t.moveCount + 1 == n * n then (true, Some(Success))
        else if |NextMoves((x, y), v)| == 0 then (true, Some(NoMove))
        else (t.gameOver, t.failReason);
      t.(knight := Some((x, y)), visited := v, moveCount := t.moveCount + 1, gameOver := over, failReason := reason)
  }

  /** The first render's state satisfies the invariant. */
  lemma InitialTourValid()
    ensures ValidTour(InitialTour())
  {
    CountZero(Blank(8));
  }

  lemma ResetValid(t: Tour)
    requires t.boardSize in BoardSizes
    ensures ValidTour(Reset(t)) && Reset(t).boardSize == t.boardSize
    ensures forall i, j :: 0 <= i < t.boardSize && 0 <= j < t.boardSize ==> !Reset(t).visited[i][j]
  {
    CountZero(Blank(t.boardSize));
  }

  /**
   * A size change reached through the size buttons (which do nothing once started)
   * gives a valid all-unvisited board of the new size.
   */
  lemma SizeChangeValid(t: Tour, size: int)
    requires ValidTour(t) && !t.started && size in BoardSizes
    ensures ValidTour(SizeChange(t, size)) && SizeChange(t, size).boardSize == size
    ensures forall i, j :: 0 <= i < size && 0 <= j < size ==> !SizeChange(t, size).visited[i][j]
  {
    CountZero(Blank(size));
  }

  /** The first click drops the knight on the clicked cell, the only visited one. */
  lemma StartMarksOnlyClicked(t: Tour, x: int, y: int)
    requires ValidTour(t) && !t.started && OnBoard(t.boardSize, (x, y))
    ensures var u := Click(t, x, y);
      u.started && u.knight == Some((x, y)) && u.moveCount == 1 && !u.gameOver &&
      forall i, j :: 0 <= i < t.boardSize && 0 <= j < t.boardSize ==> (u.visited[i][j] <==> (i, j) == (x, y))
  {
  }

  /**
   * Once started, a click moves the knight exactly when the game is running and the
   * cell is an unvisited knight jump away; a move marks that one cell and counts it.
   * Visited cells are never cleared.
   */
  lemma ClickMovesOnlyByJumps(t: Tour, x: int, y: int)
    requires ValidTour(t) && t.started && OnBoard(t.boardSize, (x, y))
    ensures var u := Click(t, x, y);
      var accepted := !t.gameOver && IsKnightOffset((x - t.knight.value.0, y - t.knight.value.1)) && !t.visited[x][y];
      (accepted ==> u.knight == Some((x, y)) && u.moveCount == t.moveCount + 1 &&
                    forall i, j :: 0 <= i < t.boardSize && 0 <= j < t.boardSize ==>
                      (u.visited[i][j] <==> t.visited[i][j] || (i, j) == (x, y))) &&
      (!accepted ==> u == t)
  {
    KnightMovesAreTheJumps();
  }

  /**
   * An accepted move ends the game with success exactly when every cell is now
   * visited, otherwise with no-move exactly when the knight has no next move.
   */
  lemma ClickOutcome(t: Tour, x: int, y: int)
    requires ValidTour(t) && t.started && !t.gameOver && OnBoard(t.boardSize, (x, y))
    requires KnightStep(t.knight.value, (x, y)) && !t.visited[x][y]
    ensures var u := Click(t, x, y);
      var n := t.boardSize;
      (u.failReason == Some(Success) <==> forall i, j :: 0 <= i < n && 0 <= j < n ==> u.visited[i][j]) &&
      (u.failReason == Some(NoMove) <==>
        (exists i, j :: 0 <= i < n && 0 <= j < n && !u.visited[i][j]) && |NextMoves((x, y), u.visited)| == 0) &&
      (u.failReason.None? <==> !u.gameOver)
  {
    CountMark(t.visited, (x, y));
    CountFull(Mark(t.visited, (x, y)), t.boardSize);
  }

  /** Every click keeps the state invariant, in particular moveCount == number of visited cells. */
  lemma ClickValid(t: Tour, x: int, y: int)
    requires ValidTour(t) && OnBoard(t.boardSize, (x, y))
    ensures ValidTour(Click(t, x, y))
  {
    if !t.started {
      StartValid(t, x, y);
    } else if !t.gameOver && KnightStep(t.knight.value, (x, y)) && !t.visited[x][y] {
      JumpValid(t, x, y);
    }
  }

  lemma StartValid(t: Tour, x: int, y: int)
    requires ValidTour(t) && !t.started && OnBoard(t.boardSize, (x, y))
    ensures ValidTour(Click(t, x, y))
  {
    CountZero(Blank(t.boardSize));
    CountMark(Blank(t.boardSize), (x, y));
  }

  lemma JumpValid(t: Tour, x: int, y: int)
    requires ValidTour(t) && t.started && !t.gameOver && OnBoard(t.boardSize, (x, y))
    requires KnightStep(t.knight.value, (x, y)) && !t.visited[x][y]
    ensures ValidTour(Click(t, x, y))
  {
    CountMark(t.visited, (x, y));
  }

  /** The board disables a cell that holds the knight or was visited, every cell once over, and non-jumps once started. */
  predicate CellDisabled(t: Tour, x: int, y: int)
    requires Square(t.visited, t.boardSize) && OnBoard(t.boardSize, (x, y))
  {
    var isKnight := t.knight == Some((x, y));
    var isVisited := t.visited[x][y];
    var isNext := t.started && t.knight.Some? && !isKnight && !isVisited && KnightStep(t.knight.value, (x, y));
    isKnight || isVisited || t.gameOver || (t.started && !isNext)
  }

  /** A clickable cell always advances the count by one; a disabled one would change nothing. */
  lemma EnabledExactlyWhenClickCounts(t: Tour, x: int, y: int)
    requires ValidTour(t) && OnBoard(t.boardSize, (x, y))
    ensures !CellDisabled(t, x, y) <==> Click(t, x, y).moveCount == t.moveCount + 1
    ensures t.started && CellDisabled(t, x, y) ==> Click(t, x, y) == t
  {
    CountZero(t.visited);
  }

  // ---------------------------------------------------------------------------
  // The component
  // ---------------------------------------------------------------------------

  class KnightsTourGame {
    var boardSize: int
    var knight: Option<Cell>
    var visited: seq<seq<bool>>
    var moveCount: int
    var gameOver: bool
    var started: bool
    var failReason: Option<FailReason>

    function Current(): Tour
      reads this
    {
      Tour(boardSize, knight, visited, moveCount, gameOver, started, failReason)
    }

    predicate Valid()
      reads this
    {
      ValidTour(Current())
    }

    constructor ()
      ensures Current() == InitialTour() && Valid()
    {
      boardSize := 8;
      knight := None;
      visited := Blank(8);
      moveCount := 0;
      gameOver := false;
      started := false;
      failReason := None;
      InitialTourValid();
    }

    method HandleSizeChange(size: int)
      requires size in BoardSizes
      modifies this
      ensures Current() == SizeChange(old(Current()), size)
    {
      boardSize := size;
      knight := None;
      visited := Blank(size);
      moveCount := 0;
      gameOver := false;
      started := false;
    }

    /** A size button: it does nothing once the tour has started. */
    method OnSizeClick(size: int)
      requires Valid() && size in BoardSizes
      modifies this
      ensures !old(started) ==> Current() == SizeChange(old(Current()), size)
      ensures old(started) ==> Current() == old(Current())
      ensures Valid()
    {
      if !started {
        SizeChangeValid(Current(), size);
        HandleSizeChange(size);
      }
    }

    method HandleCellClick(x: int, y: int)
      requires Valid() && OnBoard(boardSize, (x, y))
      modifies this
      ensures Current() == Click(old(Current()), x, y) && Valid()
    {
      ghost var t := Current();
      ClickValid(t, x, y);
      var n := boardSize;
      if !started {
        assert Click(t, x, y) == Tour(n, Some((x, y)), Mark(Blank(n), (x, y)), 1, false, true, None);
        knight := Some((x, y));
        visited := Mark(Blank(n), (x, y));
        moveCount := 1;
        started := true;
        gameOver := false;
        failReason := None;
        return;
      }
      if gameOver || knight.None? {
        assert Click(t, x, y) == t;
        return;
      }
      var isKnightMove := KnightStep(knight.value, (x, y));
      if !isKnightMove || visited[x][y] {
        assert Click(t, x, y) == t;
        return;
      }
      Jump(x, y);
    }

    /** The accepted-jump part of handleCellClick: mark, move, count, then classify. */
    method Jump(x: int, y: int)
      requires boardSize in BoardSizes && Square(visited, boardSize) && OnBoard(boardSize, (x, y))
      requires started && !gameOver && knight.Some? && KnightStep(knight.value, (x, y)) && !visited[x][y]
      modifies this
      ensures Current() == Click(old(Current()), x, y)
    {
      ghost var t := Current();
      var n := boardSize;
      var newVisited := Mark(visited, (x, y));
      var count := moveCount + 1;
      var over, reason := gameOver, failReason;
      if count == n * n {
        over, reason := true, Some(Success);
      } else {
        var nextMoves := NextMoves((x, y), newVisited);
        if |nextMoves| == 0 {
          over, reason := true, Some(NoMove);
        }
      }
      knight, visited, moveCount := Some((x, y)), newVisited, count;
      gameOver, failReason := over, reason;
      assert Click(t, x, y) == Tour(n, Some((x, y)), newVisited, count, over, t.started, reason);
    }

    method HandleReset()
      requires boardSize in BoardSizes
      modifies this
      ensures Current() == Reset(old(Current())) && Valid()
    {
      ResetValid(Current());
      knight := None;
      visited := Blank(boardSize);
      moveCount := 0;
      gameOver := false;
      started := false;
      failReason := None;
    }
  }
}
