/**
 * Move generation of the wall-baduk game (`getAvailableMoves` in
 * src/app/wall-baduk/page.tsx): the stone's own cell (a pass), straight moves of one
 * or two cells that stop at the first wall or stone, and one-cell diagonal moves.
 */
module Moves {
  import opened Values
  import opened Logics

  const StraightDirs: seq<(int, int)> := [(0, 1), (1, 0), (0, -1), (-1, 0)]
  const DiagDirs: seq<(int, int)> := [(1, 1), (1, -1), (-1, 1), (-1, -1)]

  /** The cell `k` steps from (sr, sc) along the direction d. */
  function Along(sr: int, sc: int, d: (int, int), k: int): Cell {
    (sr + d.0 * k, sc + d.1 * k)
  }

  /** Every cell between the start and an in-bounds end of a straight run is in bounds. */
  lemma AlongInBounds(sr: int, sc: int, d: (int, int), k: int, dist: int)
    requires d in StraightDirs && 0 <= k <= dist
    requires InBounds(sr, sc) && InBounds(Along(sr, sc, d, dist).0, Along(sr, sc, d, dist).1)
    ensures InBounds(Along(sr, sc, d, k).0, Along(sr, sc, d, k).1)
  {
  }

  /**
   * Step `step` of a straight move of length `dist` is blocked: a wall on the edge
   * it crosses, or a stone on the cell it reaches when that cell is not the target.
   */
  predicate StepBlocked(stones: seq<Stone>, walls: Walls, sr: int, sc: int, d: (int, int), step: int, dist: int)
    requires WellFormed(walls) && d in StraightDirs
    requires InBounds(Along(sr, sc, d, step - 1).0, Along(sr, sc, d, step - 1).1)
    requires InBounds(Along(sr, sc, d, step).0, Along(sr, sc, d, step).1)
  {
    var (cr, cc) := Along(sr, sc, d, step - 1);
    var (tr, tc) := Along(sr, sc, d, step);
    CheckWall(cr, cc, tr, tc, walls) || (step < dist && CheckStone(tr, tc, stones))
  }

  /** The straight move of `dist` (1 or 2) cells along d is allowed. */
  predicate StraightOk(stones: seq<Stone>, walls: Walls, sr: int, sc: int, d: (int, int), dist: int)
    requires WellFormed(walls) && InBounds(sr, sc) && d in StraightDirs && (dist == 1 || dist == 2)
  {
    var t := Along(sr, sc, d, dist);
    InBounds(t.0, t.1) &&
    !StepBlocked(stones, walls, sr, sc, d, 1, dist) &&
    (dist == 2 ==> !StepBlocked(stones, walls, sr, sc, d, 2, dist)) &&
    !CheckStone(t.0, t.1, stones)
  }

  /** The targets of the straight loop for one direction: it stops at the first distance refused. */
  function StraightRun(stones: seq<Stone>, walls: Walls, sr: int, sc: int, d: (int, int)): (run: seq<Cell>)
    requires WellFormed(walls) && InBounds(sr, sc) && d in StraightDirs
  {
    if !StraightOk(stones, walls, sr, sc, d, 1) then []
    else if !StraightOk(stones, walls, sr, sc, d, 2) then [Along(sr, sc, d, 1)]
    else [Along(sr, sc, d, 1), Along(sr, sc, d, 2)]
  }

  /** The straight targets of the first k directions, in loop order. */
  function StraightMoves(stones: seq<Stone>, walls: Walls, sr: int, sc: int, k: int): (moves: seq<Cell>)
    requires WellFormed(walls) && InBounds(sr, sc) && 0 <= k <= |StraightDirs|
  {
    if k == 0 then []
    else
      var prev := StraightMoves(stones, walls, sr, sc, k - 1);
      prev + StraightRun(stones, walls, sr, sc, StraightDirs[k - 1])
  }

  /** The diagonal step along d is allowed: target and both corner cells empty, not walled off. */
  predicate DiagOk(stones: seq<Stone>, walls: Walls, sr: int, sc: int, d: (int, int))
    requires WellFormed(walls) && InBounds(sr, sc) && d in DiagDirs
  {
    var (nr, nc) := (sr + d.0, sc + d.1);
    InBounds(nr, nc) &&
    !(CheckStone(sr, nc, stones) || CheckStone(nr, sc, stones) || CheckStone(nr, nc, stones)) &&
    !CheckWall(sr, sc, nr, nc, walls)
  }

  /** The diagonal targets of the first k directions, in loop order. */
  function DiagMoves(stones: seq<Stone>, walls: Walls, sr: int, sc: int, k: int): (moves: seq<Cell>)
    requires WellFormed(walls) && InBounds(sr, sc) && 0 <= k <= |DiagDirs|
  {
    if k == 0 then []
    else
      var d := DiagDirs[k - 1];
      DiagMoves(stones, walls, sr, sc, k - 1) +
      (if DiagOk(stones, walls, sr, sc, d) then [(sr + d.0, sc + d.1)] else [])
  }

  /** What getAvailableMoves returns for a stone on (sr, sc). */
  function AvailableMoves(stones: seq<Stone>, walls: Walls, sr: int, sc: int): seq<Cell>
    requires WellFormed(walls) && InBounds(sr, sc)
  {
    [(sr, sc)] + StraightMoves(stones, walls, sr, sc, |StraightDirs|) + DiagMoves(stones, walls, sr, sc, |DiagDirs|)
  }

  /**
   * The `step` loop of a straight move of length dist: walk from the stone towards the
   * target and report whether some step is blocked.
   */
  method WalkBlocked(stones: seq<Stone>, walls: Walls, sr: int, sc: int, d: (int, int), dist: int)
    returns (blocked: bool)
    requires WellFormed(walls) && InBounds(sr, sc) && d in StraightDirs && (dist == 1 || dist == 2)
    requires InBounds(Along(sr, sc, d, dist).0, Along(sr, sc, d, dist).1)
    ensures !blocked <==> !StepBlocked(stones, walls, sr, sc, d, 1, dist) &&
                          (dist == 2 ==> (AlongInBounds(sr, sc, d, 1, dist); !StepBlocked(stones, walls, sr, sc, d, 2, dist)))
  {
    blocked := false;
    var cr, cc := sr, sc;
    for step := 1 to dist + 1
      invariant (cr, cc) == Along(sr, sc, d, step - 1)
      invariant !blocked
      invariant forall j :: 1 <= j < step ==> StepClear(stones, walls, sr, sc, d, j, dist)
    {
      AlongInBounds(sr, sc, d, step - 1, dist);
      AlongInBounds(sr, sc, d, step, dist);
      var tr, tc := sr + d.0 * step, sc + d.1 * step;
      if CheckWall(cr, cc, tr, tc, walls) {
        blocked := true;
        break;
      }
      if step < dist && CheckStone(tr, tc, stones) {
        blocked := true;
        break;
      }
      cr, cc := tr, tc;
    }
    AlongInBounds(sr, sc, d, 1, dist);
    if !blocked {
      assert StepClear(stones, walls, sr, sc, d, 1, dist);
      assert dist == 2 ==> StepClear(stones, walls, sr, sc, d, 2, dist);
    }
  }

  /** The `dist` loop for one straight direction. */
  method StraightLoop(stones: seq<Stone>, walls: Walls, sr: int, sc: int, d: (int, int)) returns (run: seq<Cell>)
    requires WellFormed(walls) && InBounds(sr, sc) && d in StraightDirs
    ensures run == StraightRun(stones, walls, sr, sc, d)
  {
    run := [];
    for dist := 1 to 3
      invariant dist >= 2 ==> StraightOk(stones, walls, sr, sc, d, 1)
      invariant dist == 3 ==> StraightOk(stones, walls, sr, sc, d, 2)
      invariant run == (if dist == 1 then [] else if dist == 2 then [Along(sr, sc, d, 1)]
                        else [Along(sr, sc, d, 1), Along(sr, sc, d, 2)])
    {
      var nr, nc := sr + d.0 * dist, sc + d.1 * dist;
      if nr < 0 || nr >= MapSize || nc < 0 || nc >= MapSize {
        assert !StraightOk(stones, walls, sr, sc, d, dist);
        break;
      }
      var blocked := WalkBlocked(stones, walls, sr, sc, d, dist);
      if blocked {
        assert !StraightOk(stones, walls, sr, sc, d, dist);
        break;
      }
      if CheckStone(nr, nc, stones) {
        assert !StraightOk(stones, walls, sr, sc, d, dist);
        break;
      }
      run := run + [(nr, nc)];
    }
  }

  method GetAvailableMoves(stones: seq<Stone>, walls: Walls, stoneIdx: int) returns (moves: seq<Cell>)
    requires WellFormed(walls) && 0 <= stoneIdx < |stones|
    requires InBounds(stones[stoneIdx].row, stones[stoneIdx].col)
    ensures moves == AvailableMoves(stones, walls, stones[stoneIdx].row, stones[stoneIdx].col)
  {
    var sr, sc := stones[stoneIdx].row, stones[stoneIdx].col;
    moves := [(sr, sc)];
    var straight := StraightLoops(stones, walls, sr, sc);
    moves := moves + straight;
    var diag := DiagonalLoop(stones, walls, sr, sc);
    moves := moves + diag;
  }

  /** The loop over the four straight directions. */
  method StraightLoops(stones: seq<Stone>, walls: Walls, sr: int, sc: int) returns (straight: seq<Cell>)
    requires WellFormed(walls) && InBounds(sr, sc)
    ensures straight == StraightMoves(stones, walls, sr, sc, |StraightDirs|)
  {
    straight := [];
    for k := 0 to |StraightDirs|
      invariant straight == StraightMoves(stones, walls, sr, sc, k)
    {
      var run := StraightLoop(stones, walls, sr, sc, StraightDirs[k]);
      straight := straight + run;
    }
  }

  /** The loop over the four diagonal directions. */
  method DiagonalLoop(stones: seq<Stone>, walls: Walls, sr: int, sc: int) returns (diag: seq<Cell>)
    requires WellFormed(walls) && InBounds(sr, sc)
    ensures diag == DiagMoves(stones, walls, sr, sc, |DiagDirs|)
  {
    diag := [];
    for k := 0 to |DiagDirs|
      invariant diag == DiagMoves(stones, walls, sr, sc, k)
    {
      var d := DiagDirs[k];
      var nr, nc := sr + d.0, sc + d.1;
      if nr < 0 || nr >= MapSize || nc < 0 || nc >= MapSize {
        continue;
      }
      if CheckStone(sr, nc, stones) || CheckStone(nr, sc, stones) || CheckStone(nr, nc, stones) {
        continue;
      }
      if CheckWall(sr, sc, nr, nc, walls) {
        continue;
      }
      diag := diag + [(nr, nc)];
    }
  }

  /** Step j of a straight move of length dist has both cells in bounds and is not blocked. */
  predicate StepClear(stones: seq<Stone>, walls: Walls, sr: int, sc: int, d: (int, int), j: int, dist: int)
    requires WellFormed(walls) && d in StraightDirs
  {
    InBounds(Along(sr, sc, d, j - 1).0, Along(sr, sc, d, j - 1).1) &&
    InBounds(Along(sr, sc, d, j).0, Along(sr, sc, d, j).1) &&
    !StepBlocked(stones, walls, sr, sc, d, j, dist)
  }

  // ---------------------------------------------------------------------------
  // What the move list means
  // ---------------------------------------------------------------------------

  /** The cells one straight direction contributes. */
  lemma StraightRunMembers(stones: seq<Stone>, walls: Walls, sr: int, sc: int, d: (int, int))
    requires WellFormed(walls) && InBounds(sr, sc) && d in StraightDirs
    ensures forall p :: p in StraightRun(stones, walls, sr, sc, d) <==>
      (p == Along(sr, sc, d, 1) && StraightOk(stones, walls, sr, sc, d, 1)) ||
      (p == Along(sr, sc, d, 2) && StraightOk(stones, walls, sr, sc, d, 1) && StraightOk(stones, walls, sr, sc, d, 2))
  {
  }

  lemma {:induction false} StraightMovesMembers(stones: seq<Stone>, walls: Walls, sr: int, sc: int, k: int)
    requires WellFormed(walls) && InBounds(sr, sc) && 0 <= k <= |StraightDirs|
    ensures forall p :: p in StraightMoves(stones, walls, sr, sc, k) <==>
      exists j :: 0 <= j < k && p in StraightRun(stones, walls, sr, sc, StraightDirs[j])
  {
    if k > 0 {
      StraightMovesMembers(stones, walls, sr, sc, k - 1);
    }
  }

  lemma {:induction false} DiagMovesMembers(stones: seq<Stone>, walls: Walls, sr: int, sc: int, k: int)
    requires WellFormed(walls) && InBounds(sr, sc) && 0 <= k <= |DiagDirs|
    ensures forall p :: p in DiagMoves(stones, walls, sr, sc, k) <==>
      exists j :: 0 <= j < k && p == Along(sr, sc, DiagDirs[j], 1) && DiagOk(stones, walls, sr, sc, DiagDirs[j])
  {
    if k > 0 {
      DiagMovesMembers(stones, walls, sr, sc, k - 1);
    }
  }

  /**
   * The stone's own cell comes first; every other entry is an in-bounds, stone-free
   * cell other than the stone's own, and there are at most 1 + 4 * 2 + 4 entries.
   */
  lemma {:induction false} PassFirstOthersFree(stones: seq<Stone>, walls: Walls, sr: int, sc: int)
    requires WellFormed(walls) && InBounds(sr, sc)
    ensures var moves := AvailableMoves(stones, walls, sr, sc);
      moves[0] == (sr, sc) && |moves| <= 13 &&
      forall i :: 1 <= i < |moves| ==>
        moves[i] != (sr, sc) && InBounds(moves[i].0, moves[i].1) && !CheckStone(moves[i].0, moves[i].1, stones)
  {
    var moves := AvailableMoves(stones, walls, sr, sc);
    StraightMovesMembers(stones, walls, sr, sc, |StraightDirs|);
    DiagMovesMembers(stones, walls, sr, sc, |DiagDirs|);
    StraightMovesLength(stones, walls, sr, sc, |StraightDirs|);
    DiagMovesLength(stones, walls, sr, sc, |DiagDirs|);
    forall i | 1 <= i < |moves|
      ensures moves[i] != (sr, sc) && InBounds(moves[i].0, moves[i].1) && !CheckStone(moves[i].0, moves[i].1, stones)
    {
      var p := moves[i];
      if i <= |StraightMoves(stones, walls, sr, sc, |StraightDirs|)| {
        assert p in StraightMoves(stones, walls, sr, sc, |StraightDirs|);
        var j :| 0 <= j < |StraightDirs| && p in StraightRun(stones, walls, sr, sc, StraightDirs[j]);
        StraightTargetFree(stones, walls, sr, sc, StraightDirs[j], p);
      } else {
        assert p in DiagMoves(stones, walls, sr, sc, |DiagDirs|);
        var j :| 0 <= j < |DiagDirs| && p == Along(sr, sc, DiagDirs[j], 1) && DiagOk(stones, walls, sr, sc, DiagDirs[j]);
        DiagTargetFree(stones, walls, sr, sc, DiagDirs[j]);
      }
    }
  }

  /** A straight target is an empty in-bounds cell other than the start. */
  lemma StraightTargetFree(stones: seq<Stone>, walls: Walls, sr: int, sc: int, d: (int, int), p: Cell)
    requires WellFormed(walls) && InBounds(sr, sc) && d in StraightDirs
    requires p in StraightRun(stones, walls, sr, sc, d)
    ensures p != (sr, sc) && InBounds(p.0, p.1) && !CheckStone(p.0, p.1, stones)
  {
    StraightRunMembers(stones, walls, sr, sc, d);
  }

  /** A diagonal target is an empty in-bounds cell other than the start. */
  lemma DiagTargetFree(stones: seq<Stone>, walls: Walls, sr: int, sc: int, d: (int, int))
    requires WellFormed(walls) && InBounds(sr, sc) && d in DiagDirs
    requires DiagOk(stones, walls, sr, sc, d)
    ensures var p := Along(sr, sc, d, 1);
      p != (sr, sc) && InBounds(p.0, p.1) && !CheckStone(p.0, p.1, stones)
  {
  }

  lemma {:induction false} StraightMovesLength(stones: seq<Stone>, walls: Walls, sr: int, sc: int, k: int)
    requires WellFormed(walls) && InBounds(sr, sc) && 0 <= k <= |StraightDirs|
    ensures |StraightMoves(stones, walls, sr, sc, k)| <= 2 * k
  {
    if k > 0 {
      StraightMovesLength(stones, walls, sr, sc, k - 1);
    }
  }

  lemma {:induction false} DiagMovesLength(stones: seq<Stone>, walls: Walls, sr: int, sc: int, k: int)
    requires WellFormed(walls) && InBounds(sr, sc) && 0 <= k <= |DiagDirs|
    ensures |DiagMoves(stones, walls, sr, sc, k)| <= k
  {
    if k > 0 {
      DiagMovesLength(stones, walls, sr, sc, k - 1);
    }
  }

  /**
   * A straight target is offered exactly when every distance up to it is allowed; in
   * particular a distance-2 target needs the distance-1 target, an empty middle cell
   * and no wall on either edge.
   */
  lemma StraightMembership(stones: seq<Stone>, walls: Walls, sr: int, sc: int, d: (int, int), dist: int)
    requires WellFormed(walls) && InBounds(sr, sc) && d in StraightDirs && (dist == 1 || dist == 2)
    ensures Along(sr, sc, d, dist) in AvailableMoves(stones, walls, sr, sc) <==>
      StraightOk(stones, walls, sr, sc, d, 1) && (dist == 2 ==> StraightOk(stones, walls, sr, sc, d, 2))
  {
    var p := Along(sr, sc, d, dist);
    StraightMovesMembers(stones, walls, sr, sc, |StraightDirs|);
    DiagMovesMembers(stones, walls, sr, sc, |DiagDirs|);
    forall j | 0 <= j < |StraightDirs|
      ensures p in StraightRun(stones, walls, sr, sc, StraightDirs[j]) <==>
        StraightDirs[j] == d && StraightOk(stones, walls, sr, sc, d, 1) && (dist == 2 ==> StraightOk(stones, walls, sr, sc, d, 2))
    {
      StraightRunMembers(stones, walls, sr, sc, StraightDirs[j]);
    }
  }

  lemma DistanceTwoNeedsClearPath(stones: seq<Stone>, walls: Walls, sr: int, sc: int, d: (int, int))
    requires WellFormed(walls) && InBounds(sr, sc) && d in StraightDirs
    requires Along(sr, sc, d, 2) in AvailableMoves(stones, walls, sr, sc)
    ensures var (mr, mc) := Along(sr, sc, d, 1);
            var (tr, tc) := Along(sr, sc, d, 2);
      Along(sr, sc, d, 1) in AvailableMoves(stones, walls, sr, sc) &&
      InBounds(mr, mc) && InBounds(tr, tc) &&
      !CheckStone(mr, mc, stones) && !CheckWall(sr, sc, mr, mc, walls) && !CheckWall(mr, mc, tr, tc, walls)
  {
    StraightMembership(stones, walls, sr, sc, d, 2);
    StraightMembership(stones, walls, sr, sc, d, 1);
  }

  /** A diagonal target is offered exactly when it and both corner cells are empty and it is not walled off. */
  lemma DiagMembership(stones: seq<Stone>, walls: Walls, sr: int, sc: int, d: (int, int))
    requires WellFormed(walls) && InBounds(sr, sc) && d in DiagDirs
    ensures Along(sr, sc, d, 1) in AvailableMoves(stones, walls, sr, sc) <==> DiagOk(stones, walls, sr, sc, d)
  {
    var p := Along(sr, sc, d, 1);
    StraightMovesMembers(stones, walls, sr, sc, |StraightDirs|);
    DiagMovesMembers(stones, walls, sr, sc, |DiagDirs|);
    forall j | 0 <= j < |StraightDirs|
      ensures p !in StraightRun(stones, walls, sr, sc, StraightDirs[j])
    {
      StraightRunMembers(stones, walls, sr, sc, StraightDirs[j]);
    }
  }
}
